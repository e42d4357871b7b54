/**
 * The configuration reader of the AI: `ReadParam` looks a key up in the
 * lines of the parameter file, and `SetUpAIParams` reads every setting by
 * its key, in a fixed order, parsing each token by the setting's type. The
 * file is given as the sequence of its lines; `double.Parse`/`float.Parse`
 * are a parameter, since real-number text is not modelled.
 */
module AIParams {
  import opened Wrappers
  import opened Text
  import opened GAFitness

  // ---------------------------------------------------------------------
  // Tokens and the lookup of one key
  // ---------------------------------------------------------------------

  predicate IsFieldSeparator(c: char) {
    c == ' ' || c == '\t'
  }

  /** A token of a parameter line: not empty and free of blanks and tabs. */
  predicate IsToken(t: string) {
    |t| > 0 && forall j :: 0 <= j < |t| ==> !IsFieldSeparator(t[j])
  }

  /** The pieces of a split that are not empty, in order. */
  function NonEmpty(pieces: seq<string>): (ts: seq<string>)
    ensures |ts| <= |pieces|
    ensures forall k :: 0 <= k < |ts| ==> ts[k] != "" && ts[k] in pieces
  {
    if |pieces| == 0 then []
    else
      var rest := NonEmpty(pieces[..|pieces| - 1]);
      if pieces[|pieces| - 1] == "" then rest else rest + [pieces[|pieces| - 1]]
  }

  /** `line.Split(' ', '\t')` with the empty pieces dropped. */
  function Tokens(line: string): seq<string> {
    NonEmpty(Split(line, {' ', '\t'}))
  }

  /** Every token is free of blanks and tabs and not empty. */
  lemma TokensAreTokens(line: string)
    ensures forall k :: 0 <= k < |Tokens(line)| ==> IsToken(Tokens(line)[k])
  {
    SplitPiecesFree(line, {' ', '\t'});
  }

  /** Dropping empty pieces changes nothing when there are none. */
  lemma {:induction false} NonEmptyOfTokens(ts: seq<string>)
    requires forall k :: 0 <= k < |ts| ==> ts[k] != ""
    ensures NonEmpty(ts) == ts
    decreases |ts|
  {
    if |ts| > 0 {
      NonEmptyOfTokens(ts[..|ts| - 1]);
      assert ts[..|ts| - 1] + [ts[|ts| - 1]] == ts;
    }
  }

  /** A line written as blank-separated tokens is tokenized back into those tokens. */
  lemma TokensOfJoin(ts: seq<string>)
    requires |ts| >= 1 && forall k :: 0 <= k < |ts| ==> IsToken(ts[k])
    ensures Tokens(Join(ts, ' ')) == ts
  {
    forall k | 0 <= k < |ts|
      ensures ' ' !in ts[k]
    {
      BlankFree(ts[k]);
    }
    SplitJoin(ts, ' ');
    SplitOnBlanksAndTabs(Join(ts, ' '), ts);
    NonEmptyOfTokens(ts);
  }

  lemma BlankFree(t: string)
    requires IsToken(t)
    ensures ' ' !in t
  {
    forall j | 0 <= j < |t|
      ensures t[j] != ' '
    {
      assert !IsFieldSeparator(t[j]);
    }
  }

  /** Splitting a tab-free text on blanks and tabs is splitting it on blanks. */
  lemma {:induction false} SplitOnBlanksAndTabs(s: string, ts: seq<string>)
    requires Split(s, {' '}) == ts
    requires forall k :: 0 <= k < |ts| ==> IsToken(ts[k])
    ensures Split(s, {' ', '\t'}) == ts
  {
    TabFreeJoin(s, ts);
    SplitSameSeparators(s, {' '}, {' ', '\t'});
  }

  /** A text whose blank-split pieces are tokens holds no tab. */
  lemma TabFreeJoin(s: string, ts: seq<string>)
    requires Split(s, {' '}) == ts
    requires forall k :: 0 <= k < |ts| ==> IsToken(ts[k])
    ensures '\t' !in s
  {
    if '\t' in s {
      var j :| 0 <= j < |s| && s[j] == '\t';
      SplitCovers(s, {' '}, j);
    }
  }

  /** Every character of a text that is not a separator lies in some piece of its split. */
  lemma {:induction false} SplitCovers(s: string, seps: set<char>, j: nat)
    requires j < |s| && s[j] !in seps
    ensures exists k :: 0 <= k < |Split(s, seps)| && s[j] in Split(s, seps)[k]
    decreases |s|
  {
    var r := Split(s, seps);
    if j == 0 {
      var rest := Split(s[1..], seps);
      assert r[0] == [s[0]] + rest[0];
      assert r[0][0] == s[0];
    } else {
      SplitCovers(s[1..], seps, j - 1);
      var rest := Split(s[1..], seps);
      var k :| 0 <= k < |rest| && s[1..][j - 1] in rest[k];
      if s[0] in seps {
        assert r[k + 1] == rest[k];
      } else if k == 0 {
        var m :| 0 <= m < |rest[0]| && rest[0][m] == s[j];
        assert r[0][m + 1] == s[j];
      } else {
        assert r[k] == rest[k];
      }
    }
  }

  /** Two separator sets that agree on every character of the text split it alike. */
  lemma {:induction false} SplitSameSeparators(s: string, a: set<char>, b: set<char>)
    requires forall j :: 0 <= j < |s| ==> (s[j] in a <==> s[j] in b)
    ensures Split(s, a) == Split(s, b)
    decreases |s|
  {
    if |s| > 0 {
      SplitSameSeparators(s[1..], a, b);
    }
  }

  /** The line defines `name`: at least two tokens, the first of which is `name`. */
  predicate Defines(line: string, name: string) {
    var ts := Tokens(line);
    |ts| >= 2 && ts[0] == name
  }

  /** The index of the first line from `i` on that defines `name`. */
  function FirstDefinition(name: string, lines: seq<string>, i: nat): (k: Option<nat>)
    requires i <= |lines|
    ensures k.Some? ==> i <= k.value < |lines| && Defines(lines[k.value], name)
    decreases |lines| - i
  {
    if i == |lines| then None
    else if Defines(lines[i], name) then Some(i)
    else FirstDefinition(name, lines, i + 1)
  }

  /** The search stops at the first defining line from `i` on, and finds none only when there is none. */
  lemma {:induction false} FirstDefinitionIsFirst(name: string, lines: seq<string>, i: nat)
    requires i <= |lines|
    ensures FirstDefinition(name, lines, i).Some? ==>
      forall j :: i <= j < FirstDefinition(name, lines, i).value ==> !Defines(lines[j], name)
    ensures FirstDefinition(name, lines, i).None? ==> forall j :: i <= j < |lines| ==> !Defines(lines[j], name)
    decreases |lines| - i
  {
    if i < |lines| && !Defines(lines[i], name) {
      FirstDefinitionIsFirst(name, lines, i + 1);
    }
  }

  datatype ParamError = ParamNotFound(name: string)

  /** The message of the exception raised for a missing key. */
  function Message(e: ParamError): (m: string)
    ensures Contains(m, e.name)
  {
    var m := "Failed set up AI params! Param '" + e.name + "' not found.";
    ContainsInfix("Failed set up AI params! Param '", e.name, "' not found.");
    m
  }

  /**
   * `ReadParam(paramName, fileName)`: the second token of the first line
   * whose first token is the name; lines with fewer than two tokens are
   * skipped, and later definitions and extra tokens are ignored.
   */
  function ReadParam(name: string, lines: seq<string>): (r: Result<string, ParamError>)
    ensures r.Success? ==> IsToken(r.value)
    ensures r.Failure? ==> r.error == ParamNotFound(name)
  {
    match FirstDefinition(name, lines, 0)
    case Some(k) =>
      TokensAreTokens(lines[k]);
      Success(Tokens(lines[k])[1])
    case None => Failure(ParamNotFound(name))
  }

  /**
   * The lookup succeeds exactly when some line defines the key, and then
   * reads the second token of the first such line.
   */
  lemma ReadParamFindsFirst(name: string, lines: seq<string>)
    ensures ReadParam(name, lines).Success? <==> exists k :: 0 <= k < |lines| && Defines(lines[k], name)
    ensures ReadParam(name, lines).Success? ==> exists k :: (0 <= k < |lines| && Defines(lines[k], name)
      && (forall j :: 0 <= j < k ==> !Defines(lines[j], name)) && ReadParam(name, lines).value == Tokens(lines[k])[1])
  {
    FirstDefinitionIsFirst(name, lines, 0);
    match FirstDefinition(name, lines, 0)
    case Some(k) =>
      assert 0 <= k < |lines| && Defines(lines[k], name);
    case None =>
  }

  /** A definition in the first part of a file is found before anything in the rest. */
  lemma {:induction false} FirstDefinitionInFront(name: string, a: seq<string>, b: seq<string>, i: nat)
    requires i <= |a|
    ensures FirstDefinition(name, a, i).Some? ==> FirstDefinition(name, a + b, i) == FirstDefinition(name, a, i)
    ensures FirstDefinition(name, a, i).None? ==> FirstDefinition(name, a + b, i) == FirstDefinition(name, a + b, |a|)
    decreases |a| - i
  {
    if i < |a| {
      assert (a + b)[i] == a[i];
      FirstDefinitionInFront(name, a, b, i + 1);
    }
  }

  /** Past the first part of a file, the search runs over the rest, shifted by the first part's length. */
  lemma {:induction false} FirstDefinitionInBack(name: string, a: seq<string>, b: seq<string>, j: nat)
    requires j <= |b|
    ensures FirstDefinition(name, b, j).None? ==> FirstDefinition(name, a + b, |a| + j).None?
    ensures FirstDefinition(name, b, j).Some? ==> FirstDefinition(name, a + b, |a| + j) == Some(|a| + FirstDefinition(name, b, j).value)
    decreases |b| - j
  {
    if j < |b| {
      assert (a + b)[|a| + j] == b[j];
      FirstDefinitionInBack(name, a, b, j + 1);
    }
  }

  /** The lookup in a file is the lookup in its first part, or else in the rest. */
  lemma ReadParamAppend(name: string, a: seq<string>, b: seq<string>)
    ensures ReadParam(name, a + b) == if ReadParam(name, a).Success? then ReadParam(name, a) else ReadParam(name, b)
  {
    FirstDefinitionInFront(name, a, b, 0);
    if FirstDefinition(name, a, 0).Some? {
      FoundInFront(name, a, b);
    } else {
      NotInFront(name, a, b);
    }
  }

  lemma NotInFront(name: string, a: seq<string>, b: seq<string>)
    requires FirstDefinition(name, a + b, 0) == FirstDefinition(name, a + b, |a|)
    ensures ReadParam(name, a + b) == ReadParam(name, b)
  {
    FirstDefinitionInBack(name, a, b, 0);
    assert FirstDefinition(name, a + b, |a| + 0) == FirstDefinition(name, a + b, 0);
    match FirstDefinition(name, b, 0)
    case Some(k) =>
      assert FirstDefinition(name, a + b, 0) == Some(|a| + k);
      FoundInBack(name, a, b, k);
    case None =>
      assert FirstDefinition(name, a + b, 0).None?;
      FoundNowhere(name, a, b);
  }

  lemma FoundInFront(name: string, a: seq<string>, b: seq<string>)
    requires FirstDefinition(name, a, 0).Some?
    requires FirstDefinition(name, a + b, 0) == FirstDefinition(name, a, 0)
    ensures ReadParam(name, a + b) == ReadParam(name, a)
  {
    var k := FirstDefinition(name, a, 0).value;
    assert (a + b)[k] == a[k];
  }

  lemma FoundInBack(name: string, a: seq<string>, b: seq<string>, k: nat)
    requires FirstDefinition(name, b, 0) == Some(k)
    requires FirstDefinition(name, a + b, 0) == Some(|a| + k)
    ensures ReadParam(name, a + b) == ReadParam(name, b)
  {
    assert (a + b)[|a| + k] == b[k];
  }

  lemma FoundNowhere(name: string, a: seq<string>, b: seq<string>)
    requires FirstDefinition(name, b, 0).None? && FirstDefinition(name, a + b, 0).None?
    ensures ReadParam(name, a + b) == ReadParam(name, b)
  {
  }

  /** A line "name value …" written by hand is read back as `value`, whatever follows it. */
  lemma ReadParamOfDefinition(name: string, value: string, extra: seq<string>, rest: seq<string>)
    requires IsToken(name) && IsToken(value) && forall k :: 0 <= k < |extra| ==> IsToken(extra[k])
    ensures ReadParam(name, [Join([name, value] + extra, ' ')] + rest) == Success(value)
  {
    var ts := [name, value] + extra;
    DefinitionLine(name, value, extra);
    var lines := [Join(ts, ' ')] + rest;
    assert lines[0] == Join(ts, ' ');
    assert FirstDefinition(name, lines, 0) == Some(0);
  }

  lemma DefinitionLine(name: string, value: string, extra: seq<string>)
    requires IsToken(name) && IsToken(value) && forall k :: 0 <= k < |extra| ==> IsToken(extra[k])
    ensures Tokens(Join([name, value] + extra, ' ')) == [name, value] + extra
    ensures Defines(Join([name, value] + extra, ' '), name)
  {
    var ts := [name, value] + extra;
    var line := Join(ts, ' ');
    assert Tokens(line) == ts by {
      TokensAppend([name, value], extra);
      TokensOfJoin(ts);
    }
    DefinesOfTokens(line, name);
  }

  /** Two runs of tokens make one. */
  lemma TokensAppend(a: seq<string>, b: seq<string>)
    requires forall k :: 0 <= k < |a| ==> IsToken(a[k])
    requires forall k :: 0 <= k < |b| ==> IsToken(b[k])
    ensures forall k :: 0 <= k < |a + b| ==> IsToken((a + b)[k])
  {
    forall k | 0 <= k < |a + b|
      ensures IsToken((a + b)[k])
    {
      if k < |a| {
        assert (a + b)[k] == a[k];
      } else {
        assert (a + b)[k] == b[k - |a|];
      }
    }
  }

  /** A line whose first of at least two tokens is `name` defines it. */
  lemma DefinesOfTokens(line: string, name: string)
    requires |Tokens(line)| >= 2 && Tokens(line)[0] == name
    ensures Defines(line, name)
  {
  }

  // ---------------------------------------------------------------------
  // Values
  // ---------------------------------------------------------------------

  /** `FitnessScalling`: the four names map to their scheme, anything else to `NoneUnsigned`. */
  function ScalingFromName(s: string): (f: FitnessScaling)
    ensures s != "Ranking" && s != "Boltzmann" && s != "Sigma" ==> f == NoneUnsigned
  {
    if s == "Ranking" then Ranking
    else if s == "Boltzmann" then Boltzmann
    else if s == "Sigma" then Sigma
    else NoneUnsigned
  }

  /** The name of each scheme, as an enumeration prints it. */
  function ScalingName(f: FitnessScaling): string {
    match f
    case Ranking => "Ranking"
    case Sigma => "Sigma"
    case Boltzmann => "Boltzmann"
    case NoneUnsigned => "NoneUnsigned"
  }

  /** Every scheme is read back from its own name, and no two share one. */
  lemma ScalingNameRoundTrip(f: FitnessScaling)
    ensures ScalingFromName(ScalingName(f)) == f
  {
  }

  /** The upper-case form of a letter of the Latin alphabet; other characters are unchanged. */
  function AsciiUpper(c: char): char {
    if 'a' <= c <= 'z' then (c as int - 32) as char else c
  }

  predicate EqualsIgnoreCase(a: string, b: string) {
    |a| == |b| && forall j :: 0 <= j < |a| ==> AsciiUpper(a[j]) == AsciiUpper(b[j])
  }

  /** `bool.Parse`: "True" or "False" in any letter case, surrounding white space ignored. */
  function ParseBool(s: string): (r: Option<bool>)
    ensures r == Some(true) <==> EqualsIgnoreCase(Trim(s), "True")
    ensures r == Some(false) <==> EqualsIgnoreCase(Trim(s), "False")
  {
    var t := Trim(s);
    if EqualsIgnoreCase(t, "True") then Some(true)
    else if EqualsIgnoreCase(t, "False") then Some(false)
    else None
  }

  /** The text `bool.ToString` writes. */
  function BoolText(b: bool): string {
    if b then "True" else "False"
  }

  lemma ParseBoolRoundTrip(b: bool)
    ensures ParseBool(BoolText(b)) == Some(b)
  {
    TrimOfTrimmed(BoolText(b));
  }

  /** `int.Parse`: an optionally signed decimal within 32 bits, surrounding white space ignored. */
  function ParseInt32(s: string): (r: Option<int>)
    ensures r.Some? ==> Int32Min <= r.value <= Int32Max
  {
    ParseInt(Trim(s))
  }

  // ---------------------------------------------------------------------
  // SetUpAIParams
  // ---------------------------------------------------------------------

  /** The static settings `SetUpAIParams` assigns, one constructor per field. */
  datatype Setting =
    | Bias | ActivationResponse | NumOutputs | NumInputs | NumHidden | NeuronsPerHiddenLayer
    | MaxPerturbation | NumElite | NumCopiesElite | CrossoverRate | MultiPointCrossover | MutationRate
    | FitnessScalling | BoltzmannTemperature | BoltzmannTemperatureStep | BoltzmannMinTemperature
    | UpdateEvolutionEnabled | UpdateEvolutionTimePeriodFrames | UpdateLifePoints
    | FitnessExperienceMultiplicationFactor
    | FitnessIncreaseMed | FitnessDecreaseMed | FitnessIncreaseBonus | FitnessDecreaseBonus
    | FitnessIncreaseGetToCover | FitnessIncreaseKill | FitnessIncreaseKillConcidence
    | FitnessIncreaseDie | FitnessIncreaseDieStrong | FitnessIncreaseHit | FitnessIncreaseGotHit
    | FitnessIncreaseWithTimeEnable | FitnessIncreaseWithTimePeriodFrames | FitnessIncreaseWithTime
    | ObjectRangeLeader | ObjectRangeSniper | ObjectRangeInfantry | ObjectRangeSupport
    | ConfigDumpAllPopulations | ConfigDumpAllPopulationsFilePath
    | ConfigDumpLastPopulation | ConfigDumpLastPopulationFilePath
    | ConfigDumpAnnVectors | ConfigDumpAnnVectorsNumProbes | ConfigDumpAnnVectorsFilePath
    | ConfigGetGenerationFromFile | ConfigGetGenerationFromFileOnlyElite | ConfigGetGenerationFromFilePath
    | ConfigLowRender | ConfigEnableDefaultLighting | ConfigTerreinHeightParameter
    | ConfigNumberCovers | ConfigNumberMeds | ConfigNumberBonuses | ConfigNumberAIObjectsInTeam
    | ConfigIncreaseExpBonus | ConfigIncreaseExpKill | ConfigIncreaseMed
    | ConfigDecreaseOfLifeWhenHit | ConfigCoverAddPoints

  const KillName := "FITNESS_INCREASE_KILL"
  const KillConcidenceName := "FITNESS_INCREASE_KILL_CONCIDENCE"

  /** The name of the field each setting is stored in. */
  function FieldName(s: Setting): (r: string)
    ensures |r| > 0
  {
    match s
    case Bias => "Bias"
    case ActivationResponse => "ActivationResponse"
    case NumOutputs => "NumOutputs"
    case NumInputs => "NumInputs"
    case NumHidden => "NumHidden"
    case NeuronsPerHiddenLayer => "NeuronsPerHiddenLayer"
    case MaxPerturbation => "MaxPerturbation"
    case NumElite => "NumElite"
    case NumCopiesElite => "NumCopiesElite"
    case CrossoverRate => "CrossoverRate"
    case MultiPointCrossover => "MultiPointCrossover"
    case MutationRate => "MutationRate"
    case FitnessScalling => "FitnessScalling"
    case BoltzmannTemperature => "BoltzmannTemperature"
    case BoltzmannTemperatureStep => "BoltzmannTemperatureStep"
    case BoltzmannMinTemperature => "BoltzmannMinTemperature"
    case UpdateEvolutionEnabled => "UPDATE_EVOLUTION_ENABLED"
    case UpdateEvolutionTimePeriodFrames => "UPDATE_EVOLUTION_TIME_PERIOD_FRAMES"
    case UpdateLifePoints => "UPDATE_LIFE_POINTS"
    case FitnessExperienceMultiplicationFactor => "FITNESS_EXPERIENCE_MULTIPLICATION_FACTOR"
    case FitnessIncreaseMed => "FITNESS_INCREASE_MED"
    case FitnessDecreaseMed => "FITNESS_DECREASE_MED"
    case FitnessIncreaseBonus => "FITNESS_INCREASE_BONUS"
    case FitnessDecreaseBonus => "FITNESS_DECREASE_BONUS"
    case FitnessIncreaseGetToCover => "FITNESS_INCREASE_GET_TO_COVER"
    case FitnessIncreaseKill => KillName
    case FitnessIncreaseKillConcidence => KillConcidenceName
    case FitnessIncreaseDie => "FITNESS_INCREASE_DIE"
    case FitnessIncreaseDieStrong => "FITNESS_INCREASE_DIE_STRONG"
    case FitnessIncreaseHit => "FITNESS_INCREASE_HIT"
    case FitnessIncreaseGotHit => "FITNESS_INCREASE_GOT_HIT"
    case FitnessIncreaseWithTimeEnable => "FITNESS_INCREASE_WITH_TIME_ENABLE"
    case FitnessIncreaseWithTimePeriodFrames => "FITNESS_INCREASE_WITH_TIME_PERIOD_FRAMES"
    case FitnessIncreaseWithTime => "FITNESS_INCREASE_WITH_TIME"
    case ObjectRangeLeader => "OBJECT_RANGE_LEADER"
    case ObjectRangeSniper => "OBJECT_RANGE_SNIPER"
    case ObjectRangeInfantry => "OBJECT_RANGE_INFANTRY"
    case ObjectRangeSupport => "OBJECT_RANGE_SUPPORT"
    case ConfigDumpAllPopulations => "CONFIG_DUMP_ALL_POPULATIONS"
    case ConfigDumpAllPopulationsFilePath => "CONFIG_DUMP_ALL_POPULATIONS_FILE_PATH"
    case ConfigDumpLastPopulation => "CONFIG_DUMP_LAST_POPULATION"
    case ConfigDumpLastPopulationFilePath => "CONFIG_DUMP_LAST_POPULATION_FILE_PATH"
    case ConfigDumpAnnVectors => "CONFIG_DUMP_ANN_VECTORS"
    case ConfigDumpAnnVectorsNumProbes => "CONFIG_DUMP_ANN_VECTORS_NUM_PROBES"
    case ConfigDumpAnnVectorsFilePath => "CONFIG_DUMP_ANN_VECTORS_FILE_PATH"
    case ConfigGetGenerationFromFile => "CONFIG_GET_GENERATION_FROM_FILE"
    case ConfigGetGenerationFromFileOnlyElite => "CONFIG_GET_GENERATION_FROM_FILE_ONLY_ELITE"
    case ConfigGetGenerationFromFilePath => "CONFIG_GET_GENERATION_FROM_FILE_PATH"
    case ConfigLowRender => "CONFIG_LOW_RENDER"
    case ConfigEnableDefaultLighting => "CONFIG_ENABLE_DEFAULT_LIGHTING"
    case ConfigTerreinHeightParameter => "CONFIG_TERREIN_HEIGHT_PARAMETER"
    case ConfigNumberCovers => "CONFIG_NUMBER_COVERS"
    case ConfigNumberMeds => "CONFIG_NUMBER_MEDS"
    case ConfigNumberBonuses => "CONFIG_NUMBER_BONUSES"
    case ConfigNumberAIObjectsInTeam => "CONFIG_NUMBER_AIOBJECTS_IN_TEAM"
    case ConfigIncreaseExpBonus => "CONFIG_INCREASE_EXP_BONUS"
    case ConfigIncreaseExpKill => "CONFIG_INCREASE_EXP_KILL"
    case ConfigIncreaseMed => "CONFIG_INCREASE_MED"
    case ConfigDecreaseOfLifeWhenHit => "CONFIG_DECREASE_OF_LIFE_WHEN_HIT"
    case ConfigCoverAddPoints => "CONFIG_COVER_ADD_POINTS"
  }

  /**
   * The key each setting is read from. Every setting is read from the key
   * spelled like its field, except that the kill reward and the kill
   * coincidence reward are read from each other's key.
   */
  function Key(s: Setting): (r: string)
    ensures r == FieldName(s) <==> s != FitnessIncreaseKill && s != FitnessIncreaseKillConcidence
  {
    if s == FitnessIncreaseKill then KillConcidenceName
    else if s == FitnessIncreaseKillConcidence then KillName
    else FieldName(s)
  }

  /** The two kill rewards swap keys; every other setting is read from its own name. */
  lemma KeysSwapOnlyKillRewards(s: Setting)
    ensures s != FitnessIncreaseKill && s != FitnessIncreaseKillConcidence ==> Key(s) == FieldName(s)
    ensures Key(FitnessIncreaseKill) == FieldName(FitnessIncreaseKillConcidence) != FieldName(FitnessIncreaseKill)
    ensures Key(FitnessIncreaseKillConcidence) == FieldName(FitnessIncreaseKill) != FieldName(FitnessIncreaseKillConcidence)
  {
  }

  /** How a setting's token is parsed. */
  datatype Kind = RealKind | IntKind | BoolKind | PathKind | ScalingKind

  /**
   * The parser of each setting: four settings are paths, the scaling
   * scheme alone has its own, and the rest are numbers or flags.
   */
  function KindOf(s: Setting): (r: Kind)
    ensures r == ScalingKind <==> s == FitnessScalling
  {
    match s
    case NumOutputs | NumInputs | NumHidden | NeuronsPerHiddenLayer | NumElite | NumCopiesElite
       | UpdateEvolutionTimePeriodFrames | FitnessIncreaseWithTimePeriodFrames | ConfigDumpAnnVectorsNumProbes
       | ConfigNumberCovers | ConfigNumberMeds | ConfigNumberBonuses | ConfigNumberAIObjectsInTeam => IntKind
    case MultiPointCrossover | UpdateEvolutionEnabled | UpdateLifePoints | FitnessIncreaseWithTimeEnable
       | ConfigDumpAllPopulations | ConfigDumpLastPopulation | ConfigDumpAnnVectors
       | ConfigGetGenerationFromFile | ConfigGetGenerationFromFileOnlyElite
       | ConfigLowRender | ConfigEnableDefaultLighting => BoolKind
    case ConfigDumpAllPopulationsFilePath | ConfigDumpLastPopulationFilePath | ConfigDumpAnnVectorsFilePath
       | ConfigGetGenerationFromFilePath => PathKind
    case FitnessScalling => ScalingKind
    case _ => RealKind
  }

  /** The order in which `SetUpAIParams` reads the settings, section by section of the file. */
  const ReadOrder: seq<Setting> := NetSettings + GeneticSettings + EvolutionSettings + RewardSettings
                                   + RangeSettings + DumpSettings + WorldSettings

  const NetSettings: seq<Setting> := [
    Bias, ActivationResponse, NumOutputs, NumInputs, NumHidden, NeuronsPerHiddenLayer
  ]

  const GeneticSettings: seq<Setting> := [
    MaxPerturbation, NumElite, NumCopiesElite, CrossoverRate, MultiPointCrossover, MutationRate,
    FitnessScalling, BoltzmannTemperature, BoltzmannTemperatureStep, BoltzmannMinTemperature
  ]

  const EvolutionSettings: seq<Setting> := [
    UpdateEvolutionEnabled, UpdateEvolutionTimePeriodFrames, UpdateLifePoints
  ]

  const RewardSettings: seq<Setting> := [
    FitnessExperienceMultiplicationFactor,
    FitnessIncreaseMed, FitnessDecreaseMed, FitnessIncreaseBonus, FitnessDecreaseBonus,
    FitnessIncreaseGetToCover, FitnessIncreaseKill, FitnessIncreaseKillConcidence,
    FitnessIncreaseDie, FitnessIncreaseDieStrong, FitnessIncreaseHit, FitnessIncreaseGotHit,
    FitnessIncreaseWithTimeEnable, FitnessIncreaseWithTimePeriodFrames, FitnessIncreaseWithTime
  ]

  const RangeSettings: seq<Setting> := [
    ObjectRangeLeader, ObjectRangeSniper, ObjectRangeInfantry, ObjectRangeSupport
  ]

  const DumpSettings: seq<Setting> := [
    ConfigDumpAllPopulations, ConfigDumpAllPopulationsFilePath,
    ConfigDumpLastPopulation, ConfigDumpLastPopulationFilePath,
    ConfigDumpAnnVectors, ConfigDumpAnnVectorsNumProbes, ConfigDumpAnnVectorsFilePath,
    ConfigGetGenerationFromFile, ConfigGetGenerationFromFileOnlyElite, ConfigGetGenerationFromFilePath
  ]

  const WorldSettings: seq<Setting> := [
    ConfigLowRender, ConfigEnableDefaultLighting, ConfigTerreinHeightParameter,
    ConfigNumberCovers, ConfigNumberMeds, ConfigNumberBonuses, ConfigNumberAIObjectsInTeam,
    ConfigIncreaseExpBonus, ConfigIncreaseExpKill, ConfigIncreaseMed,
    ConfigDecreaseOfLifeWhenHit, ConfigCoverAddPoints
  ]

  datatype Value =
    | RealValue(r: real)
    | IntValue(i: int)
    | BoolValue(b: bool)
    | PathValue(path: string)
    | ScalingValue(scaling: FitnessScaling)

  /** A missing key, or a token its type's parser refuses. */
  datatype ConfigError = Missing(key: string) | BadFormat(key: string)

  /** A token parsed by the parser of the given type. */
  function ParseValue(kind: Kind, token: string, parseReal: string -> Option<real>): (v: Option<Value>)
    ensures kind == RealKind ==> v == (if parseReal(token).Some? then Some(RealValue(parseReal(token).value)) else None)
    ensures kind == IntKind ==> v == (if ParseInt32(token).Some? then Some(IntValue(ParseInt32(token).value)) else None)
    ensures kind == BoolKind ==> v == (if ParseBool(token).Some? then Some(BoolValue(ParseBool(token).value)) else None)
    ensures kind == PathKind ==> v == Some(PathValue(token))
    ensures kind == ScalingKind ==> v == Some(ScalingValue(ScalingFromName(token)))
  {
    match kind
    case RealKind => (match parseReal(token) case Some(x) => Some(RealValue(x)) case None => None)
    case IntKind => (match ParseInt32(token) case Some(x) => Some(IntValue(x)) case None => None)
    case BoolKind => (match ParseBool(token) case Some(x) => Some(BoolValue(x)) case None => None)
    case PathKind => Some(PathValue(token))
    case ScalingKind => Some(ScalingValue(ScalingFromName(token)))
  }

  /** The value of one setting: its key looked up, then its token parsed by the setting's type. */
  function ReadSetting(lines: seq<string>, s: Setting, parseReal: string -> Option<real>): (r: Result<Value, ConfigError>)
    ensures r.Failure? ==> r.error.key == Key(s)
    ensures r.Failure? && r.error.Missing? <==> ReadParam(Key(s), lines).Failure?
    ensures r.Success? ==> (ReadParam(Key(s), lines).Success?
      && Some(r.value) == ParseValue(KindOf(s), ReadParam(Key(s), lines).value, parseReal))
  {
    match ReadParam(Key(s), lines)
    case Failure(_) => Failure(Missing(Key(s)))
    case Success(token) =>
      match ParseValue(KindOf(s), token, parseReal)
      case Some(v) => Success(v)
      case None => Failure(BadFormat(Key(s)))
  }

  /** The position of the first item from `i` on whose reading fails. */
  function FirstFailure<T, V, E>(read: T -> Result<V, E>, order: seq<T>, i: nat): (k: Option<nat>)
    requires i <= |order|
    ensures k.Some? ==> (i <= k.value < |order| && read(order[k.value]).Failure?
                         && forall j :: i <= j < k.value ==> read(order[j]).Success?)
    ensures k.None? ==> forall j :: i <= j < |order| ==> read(order[j]).Success?
    decreases |order| - i
  {
    if i == |order| then None
    else if read(order[i]).Failure? then Some(i)
    else FirstFailure(read, order, i + 1)
  }

  /**
   * Every item of `order` read one after the other: the first failure is
   * raised and ends the reading, otherwise each item maps to its value.
   */
  function ReadEach<T(!new), V, E>(read: T -> Result<V, E>, order: seq<T>): (r: Result<map<T, V>, E>)
    ensures r.Success? <==> forall i :: 0 <= i < |order| ==> read(order[i]).Success?
    ensures r.Success? ==> forall t :: t in r.value <==> t in order
    ensures r.Success? ==> forall t :: t in r.value ==> read(t) == Success(r.value[t])
    ensures r.Failure? ==> exists i :: (0 <= i < |order| && read(order[i]) == Failure(r.error)
                                        && forall j :: 0 <= j < i ==> read(order[j]).Success?)
  {
    match FirstFailure(read, order, 0)
    case Some(i) => Failure(read(order[i]).error)
    case None => Success(map t | t in order :: read(t).value)
  }

  /**
   * `SetUpAIParams(fileName)`: the settings read one after the other in the
   * program's order; the first failure is raised and ends the set-up,
   * otherwise every setting holds the value read for it.
   */
  function SetUp(lines: seq<string>, parseReal: string -> Option<real>): (r: Result<map<Setting, Value>, ConfigError>)
    ensures r.Success? <==> forall i :: 0 <= i < |ReadOrder| ==> ReadSetting(lines, ReadOrder[i], parseReal).Success?
    ensures r.Success? ==> forall s :: s in r.value <==> s in ReadOrder
    ensures r.Success? ==> forall s :: s in r.value ==> ReadSetting(lines, s, parseReal) == Success(r.value[s])
    ensures r.Failure? ==> exists i :: (0 <= i < |ReadOrder| && ReadSetting(lines, ReadOrder[i], parseReal) == Failure(r.error)
                                        && forall j :: 0 <= j < i ==> ReadSetting(lines, ReadOrder[j], parseReal).Success?)
  {
    ReadEach(s => ReadSetting(lines, s, parseReal), ReadOrder)
  }

  /** The kill reward is parsed from the token of the kill coincidence key, and the other way round. */
  lemma KillRewardsSwapKeys(lines: seq<string>, parseReal: string -> Option<real>)
    ensures ReadSetting(lines, FitnessIncreaseKill, parseReal).Success? ==>
      ReadParam(KillConcidenceName, lines).Success?
      && Some(ReadSetting(lines, FitnessIncreaseKill, parseReal).value) == ParseValue(RealKind, ReadParam(KillConcidenceName, lines).value, parseReal)
    ensures ReadSetting(lines, FitnessIncreaseKillConcidence, parseReal).Success? ==>
      ReadParam(KillName, lines).Success?
      && Some(ReadSetting(lines, FitnessIncreaseKillConcidence, parseReal).value) == ParseValue(RealKind, ReadParam(KillName, lines).value, parseReal)
  {
    KillRewardsAreRead();
  }

  /** After a successful set-up, the kill reward holds the number written after the kill coincidence key, and the other way round. */
  lemma SetUpSwapsKillRewards(lines: seq<string>, parseReal: string -> Option<real>, m: map<Setting, Value>)
    requires SetUp(lines, parseReal) == Success(m)
    ensures FitnessIncreaseKill in m && FitnessIncreaseKillConcidence in m
    ensures ReadParam(KillConcidenceName, lines).Success?
      && Some(m[FitnessIncreaseKill]) == ParseValue(RealKind, ReadParam(KillConcidenceName, lines).value, parseReal)
    ensures ReadParam(KillName, lines).Success?
      && Some(m[FitnessIncreaseKillConcidence]) == ParseValue(RealKind, ReadParam(KillName, lines).value, parseReal)
  {
    KillRewardsAreRead();
    KillRewardsSwapKeys(lines, parseReal);
  }

  lemma KillRewardsAreRead()
    ensures FitnessIncreaseKill in ReadOrder && FitnessIncreaseKillConcidence in ReadOrder
    ensures KindOf(FitnessIncreaseKill) == RealKind && KindOf(FitnessIncreaseKillConcidence) == RealKind
    ensures Key(FitnessIncreaseKill) == KillConcidenceName && Key(FitnessIncreaseKillConcidence) == KillName
  {
    RewardsAreRead(FitnessIncreaseKill, 6);
    RewardsAreRead(FitnessIncreaseKillConcidence, 7);
    KillRewardsAreReal();
    KeysSwapOnlyKillRewards(FitnessIncreaseKill);
  }

  /** Every reward setting is one of the settings read. */
  lemma RewardsAreRead(s: Setting, i: nat)
    requires i < |RewardSettings| && RewardSettings[i] == s
    ensures s in ReadOrder
  {
    var before := NetSettings + GeneticSettings + EvolutionSettings;
    var after := RangeSettings + DumpSettings + WorldSettings;
    assert ReadOrder == before + RewardSettings + after;
    assert ReadOrder[|before| + i] == s;
  }

  lemma KillRewardsAreReal()
    ensures KindOf(FitnessIncreaseKill) == RealKind && KindOf(FitnessIncreaseKillConcidence) == RealKind
  {
  }
}
