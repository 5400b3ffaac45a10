/** The statement text `create_snowflake_stage_and_upload` sends to Snowflake: the
    fully qualified stage name, the `CREATE STAGE` statement and the `PUT` command
    with its normalised local path. Connecting and executing are not modelled. */
module StageUploader {
  import opened PyBuiltins
  import ProfileResolver

  /** The stage used when no `--stage_name` is given, or an empty one. */
  const DefaultStageName: string := "BREWDATA_STAGE"

  const PutPrefix: string := "PUT file://"
  const PutSuffix: string := " AUTO_COMPRESS=FALSE OVERWRITE=TRUE"

  /** `<database>.<schema>.` */
  function StagePrefix(t: ProfileResolver.Target): string
  {
    t.database + "." + t.schema + "."
  }

  /** The last part of the stage name: the default for an absent or empty name,
      otherwise the name upper-cased. */
  function StageSuffix(stageName: Option<string>): (r: string)
    ensures stageName.None? || stageName.value == [] ==> r == DefaultStageName
    ensures stageName.Some? && stageName.value != [] ==> |r| == |stageName.value|
    ensures stageName.Some? && stageName.value != [] ==>
      forall i :: 0 <= i < |r| ==> r[i] == UpperChar(stageName.value[i])
    ensures forall i :: 0 <= i < |r| ==> !IsLowerAscii(r[i])
  {
    if stageName.None? || stageName.value == [] then DefaultStageName
    else
      UpperSettles(stageName.value);
      Upper(stageName.value)
  }

  /** The fully qualified stage: the target's database and schema, unchanged,
      then the stage's own name. */
  function QualifiedStageName(t: ProfileResolver.Target, stageName: Option<string>): (r: string)
    ensures |r| == |StagePrefix(t)| + |StageSuffix(stageName)|
    ensures r[..|StagePrefix(t)|] == StagePrefix(t) && r[|StagePrefix(t)|..] == StageSuffix(stageName)
  {
    StagePrefix(t) + StageSuffix(stageName)
  }

  /** Stage names given on the command line that differ only in letter case name
      the same stage, and names differing otherwise name different stages. */
  lemma StageNameCaseInsensitive(t: ProfileResolver.Target, a: string, b: string)
    requires a != [] && b != []
    ensures QualifiedStageName(t, Some(a)) == QualifiedStageName(t, Some(b)) <==> Lower(a) == Lower(b)
  {
    var p := StagePrefix(t);
    if QualifiedStageName(t, Some(a)) == QualifiedStageName(t, Some(b)) {
      assert Upper(a) == QualifiedStageName(t, Some(a))[|p|..];
    }
    UpperEqIffLowerEq(a, b);
  }

  /** Passing the stage part of a qualified name back in yields the same name. */
  lemma StageNameSettles(t: ProfileResolver.Target, stageName: Option<string>)
    ensures QualifiedStageName(t, Some(StageSuffix(stageName))) == QualifiedStageName(t, stageName)
  {
    var suffix := StageSuffix(stageName);
    assert suffix != [];
    UpperOfUpper(suffix);
  }

  lemma UpperOfUpper(s: string)
    requires forall i :: 0 <= i < |s| ==> !IsLowerAscii(s[i])
    ensures Upper(s) == s
  {
    assert forall i :: 0 <= i < |s| ==> UpperChar(s[i]) == s[i];
  }

  /** `CREATE STAGE IF NOT EXISTS <stage>` */
  function CreateStageCommand(stage: string): (r: string)
    ensures |r| == |"CREATE STAGE IF NOT EXISTS "| + |stage|
    ensures r[..|"CREATE STAGE IF NOT EXISTS "|] == "CREATE STAGE IF NOT EXISTS "
    ensures r[|"CREATE STAGE IF NOT EXISTS "|..] == stage
  {
    "CREATE STAGE IF NOT EXISTS " + stage
  }

  /** The local path with every backslash turned into a forward slash. */
  function NormalizePath(path: string): (r: string)
    ensures |r| == |path| && '\\' !in r
    ensures forall i :: 0 <= i < |path| && path[i] != '\\' ==> r[i] == path[i]
    ensures forall i :: 0 <= i < |path| && path[i] == '\\' ==> r[i] == '/'
  {
    ReplaceCharSettles(path, '\\', '/');
    ReplaceChar(path, '\\', '/')
  }

  /** Normalising an already normalised path changes nothing. */
  lemma NormalizePathIdempotent(path: string)
    ensures NormalizePath(NormalizePath(path)) == NormalizePath(path)
  {
    ReplaceCharSettles(path, '\\', '/');
  }

  /** `PUT file://<path> @<stage> AUTO_COMPRESS=FALSE OVERWRITE=TRUE` */
  function PutCommand(path: string, stage: string): (r: string)
    ensures |r| == |PutPrefix| + |path| + 2 + |stage| + |PutSuffix|
    ensures r[..|PutPrefix|] == PutPrefix && r[|r| - |PutSuffix|..] == PutSuffix
    ensures r[|PutPrefix|..|PutPrefix| + |path|] == NormalizePath(path)
    ensures r[|PutPrefix| + |path|..|PutPrefix| + |path| + 2] == " @"
    ensures r[|PutPrefix| + |path| + 2..|r| - |PutSuffix|] == stage
  {
    PutPrefix + NormalizePath(path) + " @" + stage + PutSuffix
  }

  /** The path and the stage a `PUT` command names. */
  datatype PutTarget = PutTarget(path: string, stage: string)

  /** The position of the last `c` in `s`. */
  function LastIndexOf(s: string, c: char): (r: Option<nat>)
    ensures r.Some? ==> r.value < |s| && s[r.value] == c && c !in s[r.value + 1..]
    ensures r.None? ==> c !in s
  {
    if s == [] then None
    else if s[|s| - 1] == c then Some(|s| - 1)
    else LastIndexOf(s[..|s| - 1], c)
  }

  /** Reads a `PUT` command back: the fixed prefix and options, then the path and
      the stage around the last ` @`. */
  function ParsePut(cmd: string): Option<PutTarget>
  {
    if |cmd| < |PutPrefix| + |PutSuffix| then None
    else if cmd[..|PutPrefix|] != PutPrefix || cmd[|cmd| - |PutSuffix|..] != PutSuffix then None
    else SplitAtLastAt(cmd[|PutPrefix|..|cmd| - |PutSuffix|])
  }

  /** `<path> @<stage>` split at its last `@`. */
  function SplitAtLastAt(middle: string): Option<PutTarget>
  {
    match LastIndexOf(middle, '@')
    case None => None
    case Some(k) =>
      if k == 0 || middle[k - 1] != ' ' then None
      else Some(PutTarget(middle[..k - 1], middle[k + 1..]))
  }

  lemma {:induction false} LastIndexOfAppended(a: string, c: char, b: string)
    requires c !in b
    ensures LastIndexOf(a + [c] + b, c) == Some(|a|)
    decreases |b|
  {
    var s := a + [c] + b;
    if b != [] {
      assert s[..|s| - 1] == a + [c] + b[..|b| - 1];
      LastIndexOfAppended(a, c, b[..|b| - 1]);
    }
  }

  lemma ParsePutFrame(middle: string)
    ensures ParsePut(PutPrefix + middle + PutSuffix) == SplitAtLastAt(middle)
  {
    var cmd := PutPrefix + middle + PutSuffix;
    assert cmd[..|PutPrefix|] == PutPrefix;
    assert cmd[|cmd| - |PutSuffix|..] == PutSuffix;
    assert cmd[|PutPrefix|..|cmd| - |PutSuffix|] == middle;
  }

  lemma SplitAtLastAtRoundTrip(p: string, stage: string)
    requires '@' !in stage
    ensures SplitAtLastAt(p + " @" + stage) == Some(PutTarget(p, stage))
  {
    var middle := p + " @" + stage;
    assert middle == (p + " ") + ['@'] + stage;
    LastIndexOfAppended(p + " ", '@', stage);
    assert middle[..|p|] == p;
    assert middle[|p| + 2..] == stage;
  }

  /** The `PUT` command carries the normalised path and the stage intact: they can
      be read back from it whenever the stage name has no `@`. */
  lemma PutCommandRoundTrip(path: string, stage: string)
    requires '@' !in stage
    ensures ParsePut(PutCommand(path, stage)) == Some(PutTarget(NormalizePath(path), stage))
  {
    var p := NormalizePath(path);
    PutCommandParts(path, stage);
    ParsePutFrame(p + " @" + stage);
    SplitAtLastAtRoundTrip(p, stage);
  }

  lemma PutCommandParts(path: string, stage: string)
    ensures PutCommand(path, stage) == PutPrefix + (NormalizePath(path) + " @" + stage) + PutSuffix
  {
    var p := NormalizePath(path);
    assert PutPrefix + p + " @" + stage + PutSuffix == PutPrefix + (p + " @" + stage) + PutSuffix;
  }

  /** The upload this script issues names its own stage: for a target whose
      database and schema have no `@`, and a stage name without one, the `PUT`
      command reads back as the normalised path and the qualified stage. */
  lemma UploadTargetsQualifiedStage(t: ProfileResolver.Target, stageName: Option<string>, path: string)
    requires '@' !in t.database && '@' !in t.schema
    requires stageName.Some? ==> '@' !in stageName.value
    ensures var stage := QualifiedStageName(t, stageName);
      ParsePut(PutCommand(path, stage)) == Some(PutTarget(NormalizePath(path), stage))
  {
    var stage := QualifiedStageName(t, stageName);
    var suffix := StageSuffix(stageName);
    assert '@' !in suffix by {
      if stageName.Some? && stageName.value != [] {
        forall i | 0 <= i < |suffix| ensures suffix[i] != '@' {
          assert suffix[i] == UpperChar(stageName.value[i]);
          assert stageName.value[i] != '@';
        }
      }
    }
    assert stage == t.database + "." + t.schema + "." + suffix;
    PutCommandRoundTrip(path, stage);
  }
}
