/** Resolution of the dbt connection profile and target (`get_dbt_profile`).
    The profiles file arrives already parsed; console input is the sequence of
    lines the user types, read front to back. */
module ProfileResolver {
  import opened PyBuiltins

  /** One `outputs` entry of a profile: the connection fields of a target. */
  datatype Target = Target(
    account: string,
    user: string,
    password: string,
    warehouse: string,
    database: string,
    schema: string,
    role: Option<string>)

  /** A YAML mapping as Python loads it: a dict whose keys keep their file order. */
  datatype Dict<V> = Dict(keys: seq<string>, entries: map<string, V>)
  {
    ghost predicate Valid()
    {
      && (forall i, j :: 0 <= i < j < |keys| ==> keys[i] != keys[j])
      && (forall k :: k in entries <==> k in keys)
    }
  }

  /** A profile: its optional `target` field and its optional `outputs` mapping. */
  datatype Profile = Profile(target: Option<string>, outputs: Option<Dict<Target>>)

  type ProfileStore = Dict<Profile>

  ghost predicate ValidStore(store: ProfileStore)
  {
    && store.Valid()
    && forall name :: name in store.entries && store.entries[name].outputs.Some? ==>
         store.entries[name].outputs.value.Valid()
  }

  /** The exceptions `get_dbt_profile` lets escape once the file is loaded. */
  datatype Error =
    | EndOfInput                  // input() found no line: EOFError
    | NotANumber(line: string)    // int() refused the line: ValueError
    | IndexOutOfRange(index: int) // keys[i] outside the list: IndexError
    | MissingOutputs(profile: string)  // profiles[name]['outputs']: KeyError
    | UnknownTarget(target: string)    // outputs[target_name]: KeyError

  datatype Result<T> = Ok(value: T) | Err(error: Error)

  /** A key picked from a list, and the index of the next unread input line. */
  datatype Pick = Pick(name: string, next: nat)

  /** The answer to the y/n prompt, and the index of the next unread input line. */
  datatype Answer = Answer(change: bool, next: nat)

  /** What `get_dbt_profile` returns, plus how many input lines it read. */
  datatype Resolution = Resolution(profile: string, targetName: string, target: Target, consumed: nat)

  const DefaultTargetName: string := "dev"

  /** The profile name looked up first: the whole resolved working directory with
      each `-` turned into `_`. */
  function CandidateName(cwd: string): (r: string)
    ensures |r| == |cwd| && '-' !in r
    ensures forall i :: 0 <= i < |cwd| && cwd[i] != '-' ==> r[i] == cwd[i]
    ensures forall i :: 0 <= i < |cwd| && cwd[i] == '-' ==> r[i] == '_'
  {
    ReplaceCharSettles(cwd, '-', '_');
    ReplaceChar(cwd, '-', '_')
  }

  /** The index of the first key equal to `name` up to letter case. */
  function FirstCaseMatch(keys: seq<string>, name: string): (r: Option<nat>)
    ensures r.Some? ==> r.value < |keys| && Lower(keys[r.value]) == Lower(name)
    ensures r.Some? ==> forall j :: 0 <= j < r.value ==> Lower(keys[j]) != Lower(name)
    ensures r.None? ==> forall j :: 0 <= j < |keys| ==> Lower(keys[j]) != Lower(name)
  {
    if keys == [] then None
    else if Lower(keys[0]) == Lower(name) then Some(0)
    else match FirstCaseMatch(keys[1..], name)
      case None => None
      case Some(i) => Some(i + 1)
  }

  /** `keys[int(input())]`: one line is read; a line that is not an integer or an
      index outside the list is an error, with no second chance. */
  function SelectByIndex(keys: seq<string>, lines: seq<string>, pos: nat): (r: Result<Pick>)
    ensures r.Ok? <==> pos < |lines| && ParseInt(lines[pos]).Some?
                        && -|keys| <= ParseInt(lines[pos]).value < |keys|
    ensures r.Ok? ==> r.value.name in keys && r.value.next == pos + 1
    ensures r.Ok? ==> var i := ParseInt(lines[pos]).value;
      r.value.name == keys[if i < 0 then |keys| + i else i]
    ensures pos >= |lines| ==> r == Err(EndOfInput)
    ensures pos < |lines| && ParseInt(lines[pos]).None? ==> r == Err(NotANumber(lines[pos]))
    ensures pos < |lines| && ParseInt(lines[pos]).Some? ==> var i := ParseInt(lines[pos]).value;
      !(-|keys| <= i < |keys|) ==> r == Err(IndexOutOfRange(i))
  {
    if pos >= |lines| then Err(EndOfInput)
    else match ParseInt(lines[pos])
      case None => Err(NotANumber(lines[pos]))
      case Some(i) =>
        match PyIndex(keys, i)
        case None => Err(IndexOutOfRange(i))
        case Some(k) => Ok(Pick(k, pos + 1))
  }

  /** A line the y/n prompt accepts. */
  predicate IsYesNo(line: string)
  {
    Lower(line) in ["y", "n"]
  }

  /** The y/n prompt: lines are read until one is `y` or `n` in either case; every
      other line, blanks and `yes` included, is rejected and the prompt repeats. */
  function AwaitYesNo(lines: seq<string>, pos: nat): (r: Result<Answer>)
    requires pos <= |lines|
    decreases |lines| - pos
    ensures r.Ok? <==> exists k :: pos <= k < |lines| && IsYesNo(lines[k])
    ensures r.Err? ==> r.error == EndOfInput
    ensures r.Ok? ==> pos < r.value.next <= |lines| && IsYesNo(lines[r.value.next - 1])
    ensures r.Ok? ==> forall k :: pos <= k < r.value.next - 1 ==> !IsYesNo(lines[k])
    ensures r.Ok? ==> (r.value.change <==> Lower(lines[r.value.next - 1]) == "y")
  {
    if pos == |lines| then Err(EndOfInput)
    else if Lower(lines[pos]) == "y" then Ok(Answer(true, pos + 1))
    else if Lower(lines[pos]) == "n" then Ok(Answer(false, pos + 1))
    else AwaitYesNo(lines, pos + 1)
  }

  /** The profile chosen for `candidate`: the exact key, else the first key equal up
      to case, else the key whose index is typed on the first input line. */
  function ChooseProfile(store: ProfileStore, candidate: string, lines: seq<string>): (r: Result<Pick>)
    requires ValidStore(store)
    ensures r.Ok? ==> r.value.name in store.entries && r.value.next <= |lines|
  {
    if candidate in store.entries then Ok(Pick(candidate, 0))
    else match FirstCaseMatch(store.keys, candidate)
      case Some(i) => Ok(Pick(store.keys[i], 0))
      case None => SelectByIndex(store.keys, lines, 0)
  }

  /** The `target` field, or `dev` when the profile has none. */
  function DefaultTarget(p: Profile): (r: string)
    ensures p.target.Some? ==> r == p.target.value
    ensures p.target.None? ==> r == "dev"
  {
    match p.target
    case Some(t) => t
    case None => DefaultTargetName
  }

  /** A resolution names a profile of the store, one of that profile's outputs, and
      carries exactly that output's connection record. */
  ghost predicate Selects(store: ProfileStore, res: Resolution)
  {
    && res.profile in store.entries
    && store.entries[res.profile].outputs.Some?
    && res.targetName in store.entries[res.profile].outputs.value.entries
    && res.target == store.entries[res.profile].outputs.value.entries[res.targetName]
  }

  /** `outputs[name]`, which must exist. */
  function LookupTarget(profile: string, outputs: Dict<Target>, name: string, next: nat): (r: Result<Resolution>)
    ensures r.Ok? <==> name in outputs.entries
    ensures r.Ok? ==> r.value == Resolution(profile, name, outputs.entries[name], next)
  {
    if name in outputs.entries then Ok(Resolution(profile, name, outputs.entries[name], next))
    else Err(UnknownTarget(name))
  }

  /** Everything after the profile is fixed: the y/n prompt, then either the
      default target or a target picked by index among the profile's outputs. */
  function ChooseTarget(store: ProfileStore, profile: string, lines: seq<string>, pos: nat): (r: Result<Resolution>)
    requires ValidStore(store) && profile in store.entries && pos <= |lines|
    ensures r.Ok? ==> Selects(store, r.value) && r.value.profile == profile
    ensures r.Ok? ==> pos < r.value.consumed <= |lines|
  {
    var p := store.entries[profile];
    match AwaitYesNo(lines, pos)
    case Err(e) => Err(e)
    case Ok(answer) =>
      if p.outputs.None? then Err(MissingOutputs(profile))
      else if answer.change then
        match SelectByIndex(p.outputs.value.keys, lines, answer.next)
        case Err(e) => Err(e)
        case Ok(pick) => LookupTarget(profile, p.outputs.value, pick.name, pick.next)
      else LookupTarget(profile, p.outputs.value, DefaultTarget(p), answer.next)
  }

  /** `get_dbt_profile` as a function of the working directory, the loaded
      profiles and the input lines. */
  function Resolve(cwd: string, store: ProfileStore, lines: seq<string>): (r: Result<Resolution>)
    requires ValidStore(store)
    ensures r.Ok? ==> Selects(store, r.value) && 0 < r.value.consumed <= |lines|
  {
    match ChooseProfile(store, CandidateName(cwd), lines)
    case Err(e) => Err(e)
    case Ok(pick) => ChooseTarget(store, pick.name, lines, pick.next)
  }

  /** The profile-choosing half of `get_dbt_profile`: the membership test, then the
      `for ... else` scan over the keys that stops at the first case-insensitive
      match and otherwise asks for an index. */
  method PickProfile(store: ProfileStore, candidate: string, lines: seq<string>) returns (r: Result<Pick>)
    requires ValidStore(store)
    ensures r == ChooseProfile(store, candidate, lines)
  {
    if candidate in store.entries {
      return Ok(Pick(candidate, 0));
    }
    var available := store.keys;
    var i := 0;
    while i < |available|
      invariant 0 <= i <= |available|
      invariant forall j :: 0 <= j < i ==> Lower(available[j]) != Lower(candidate)
    {
      if Lower(available[i]) == Lower(candidate) {
        FirstCaseMatchAt(available, candidate, i);
        return Ok(Pick(available[i], 0));
      }
      i := i + 1;
    }
    r := SelectByIndex(available, lines, 0);
  }

  lemma FirstCaseMatchAt(keys: seq<string>, name: string, i: nat)
    requires i < |keys| && Lower(keys[i]) == Lower(name)
    requires forall j :: 0 <= j < i ==> Lower(keys[j]) != Lower(name)
    ensures FirstCaseMatch(keys, name) == Some(i)
  {
  }

  /** The y/n prompt as the script runs it: read a line, and while its lower case
      is neither `y` nor `n`, read another. */
  method PromptYesNo(lines: seq<string>, pos: nat) returns (r: Result<Answer>)
    requires pos <= |lines|
    ensures r == AwaitYesNo(lines, pos)
  {
    if pos == |lines| {
      return Err(EndOfInput);
    }
    var next := pos + 1;
    var changeTarget := lines[pos];
    while Lower(changeTarget) !in ["y", "n"]
      invariant pos < next <= |lines|
      invariant changeTarget == lines[next - 1]
      invariant AwaitYesNo(lines, pos) == AwaitYesNo(lines, next - 1)
      decreases |lines| - next
    {
      if next == |lines| {
        return Err(EndOfInput);
      }
      changeTarget := lines[next];
      next := next + 1;
    }
    r := Ok(Answer(Lower(changeTarget) == "y", next));
  }

  /** `get_dbt_profile` step by step: pick the profile, take its default target,
      run the y/n prompt, and on `y` pick a target by index. */
  method GetDbtProfile(cwd: string, store: ProfileStore, lines: seq<string>) returns (r: Result<Resolution>)
    requires ValidStore(store)
    ensures r == Resolve(cwd, store, lines)
  {
    var profilePick := PickProfile(store, CandidateName(cwd), lines);
    if profilePick.Err? {
      return Err(profilePick.error);
    }
    var profileName := profilePick.value.name;
    var p := store.entries[profileName];
    var targetName := DefaultTarget(p);
    var answer := PromptYesNo(lines, profilePick.value.next);
    if answer.Err? {
      return Err(answer.error);
    }
    var pos := answer.value.next;
    if p.outputs.None? {
      return Err(MissingOutputs(profileName));
    }
    var outputs := p.outputs.value;
    if answer.value.change {
      var targetPick := SelectByIndex(outputs.keys, lines, pos);
      if targetPick.Err? {
        return Err(targetPick.error);
      }
      targetName := targetPick.value.name;
      pos := targetPick.value.next;
    }
    if targetName !in outputs.entries {
      return Err(UnknownTarget(targetName));
    }
    r := Ok(Resolution(profileName, targetName, outputs.entries[targetName], pos));
  }

  // ---------------------------------------------------------------------------
  // Properties of the resolution

  /** The prompt takes a line as typed, without trimming: exactly `y`, `Y`, `n`
      and `N` are answers. */
  lemma YesNoLines(line: string)
    ensures IsYesNo(line) <==> line in ["y", "Y", "n", "N"]
  {
    if IsYesNo(line) {
      assert |Lower(line)| == 1;
      assert line == [line[0]];
    }
    if line in ["y", "Y", "n", "N"] {
      assert Lower(line) == [LowerChar(line[0])];
    }
  }

  /** How the profile is chosen: an exact key reads no line; otherwise the first key
      equal up to case reads no line; otherwise the first line is an index into the
      key list, and every way that can fail is an error. */
  lemma ResolveProfileOrder(cwd: string, store: ProfileStore, lines: seq<string>)
    requires ValidStore(store)
    ensures var c := CandidateName(cwd);
      c in store.entries ==> Resolve(cwd, store, lines) == ChooseTarget(store, c, lines, 0)
    ensures var c := CandidateName(cwd);
      c !in store.entries && FirstCaseMatch(store.keys, c).Some? ==>
        Resolve(cwd, store, lines) == ChooseTarget(store, store.keys[FirstCaseMatch(store.keys, c).value], lines, 0)
    ensures var c := CandidateName(cwd);
      c !in store.entries && FirstCaseMatch(store.keys, c).None? ==>
        match SelectByIndex(store.keys, lines, 0)
        case Err(e) => Resolve(cwd, store, lines) == Err(e)
        case Ok(pick) => pick.next == 1 && Resolve(cwd, store, lines) == ChooseTarget(store, pick.name, lines, 1)
  {
  }

  /** Typing the index shown next to a key, or that index minus the number of keys,
      with any blanks around it, selects that key and reads one line. */
  lemma SelectTypedIndex(keys: seq<string>, lines: seq<string>, pos: nat, k: nat, before: string, after: string)
    requires k < |keys| && pos < |lines|
    requires forall i :: 0 <= i < |before| ==> IsSpace(before[i])
    requires forall i :: 0 <= i < |after| ==> IsSpace(after[i])
    requires lines[pos] == before + Render(k) + after || lines[pos] == before + Render(k - |keys|) + after
    ensures SelectByIndex(keys, lines, pos) == Ok(Pick(keys[k], pos + 1))
  {
    ParsePaddedRender(before, k, after);
    ParsePaddedRender(before, k - |keys|, after);
  }

  /** When the prompt's answer is `n`, the target is the profile's `target` field
      (or `dev`), and it must be one of the outputs. */
  lemma DeclinedKeepsDefault(store: ProfileStore, profile: string, lines: seq<string>, pos: nat)
    requires ValidStore(store) && profile in store.entries && pos <= |lines|
    requires AwaitYesNo(lines, pos).Ok? && !AwaitYesNo(lines, pos).value.change
    ensures var p := store.entries[profile];
      var r := ChooseTarget(store, profile, lines, pos);
      (r.Ok? <==> p.outputs.Some? && DefaultTarget(p) in p.outputs.value.entries)
      && (r.Ok? ==> r.value.targetName == DefaultTarget(p) && r.value.consumed == AwaitYesNo(lines, pos).value.next)
  {
  }

  /** When the prompt's answer is `y`, the next line picks the target by index among
      the outputs' keys, and the default plays no part. */
  lemma AcceptedPicksByIndex(store: ProfileStore, profile: string, lines: seq<string>, pos: nat)
    requires ValidStore(store) && profile in store.entries && pos <= |lines|
    requires AwaitYesNo(lines, pos).Ok? && AwaitYesNo(lines, pos).value.change
    requires store.entries[profile].outputs.Some?
    ensures var outputs := store.entries[profile].outputs.value;
      var r := ChooseTarget(store, profile, lines, pos);
      var pick := SelectByIndex(outputs.keys, lines, AwaitYesNo(lines, pos).value.next);
      (r.Ok? <==> pick.Ok?)
      && (r.Ok? ==> r.value.targetName == pick.value.name && r.value.consumed == pick.value.next)
  {
  }

  /** Lines after an accepted answer are never looked at. */
  lemma {:induction false} AwaitYesNoIgnoresLaterLines(lines: seq<string>, more: seq<string>, pos: nat)
    requires pos <= |lines| && AwaitYesNo(lines, pos).Ok?
    ensures AwaitYesNo(lines + more, pos) == AwaitYesNo(lines, pos)
    decreases |lines| - pos
  {
    assert (lines + more)[pos] == lines[pos];
    if !IsYesNo(lines[pos]) {
      AwaitYesNoIgnoresLaterLines(lines, more, pos + 1);
    }
  }

  /** Resolution reads its input strictly in order: any outcome other than running
      out of input stays the same when more lines follow. */
  lemma ResolveIgnoresUnreadLines(cwd: string, store: ProfileStore, lines: seq<string>, more: seq<string>)
    requires ValidStore(store)
    requires Resolve(cwd, store, lines) != Err(EndOfInput)
    ensures Resolve(cwd, store, lines + more) == Resolve(cwd, store, lines)
  {
    var c := CandidateName(cwd);
    var first := ChooseProfile(store, c, lines);
    ChooseProfileIgnoresUnreadLines(store, c, lines, more);
    if first.Ok? {
      ChooseTargetIgnoresUnreadLines(store, first.value.name, lines, more, first.value.next);
    }
  }

  lemma ChooseProfileIgnoresUnreadLines(store: ProfileStore, candidate: string, lines: seq<string>, more: seq<string>)
    requires ValidStore(store)
    requires ChooseProfile(store, candidate, lines) != Err(EndOfInput)
    ensures ChooseProfile(store, candidate, lines + more) == ChooseProfile(store, candidate, lines)
  {
    if lines != [] {
      assert (lines + more)[0] == lines[0];
    }
  }

  lemma ChooseTargetIgnoresUnreadLines(store: ProfileStore, profile: string, lines: seq<string>, more: seq<string>, pos: nat)
    requires ValidStore(store) && profile in store.entries && pos <= |lines|
    requires ChooseTarget(store, profile, lines, pos) != Err(EndOfInput)
    ensures ChooseTarget(store, profile, lines + more, pos) == ChooseTarget(store, profile, lines, pos)
  {
    var all := lines + more;
    var answer := AwaitYesNo(lines, pos);
    if answer.Ok? {
      AwaitYesNoIgnoresLaterLines(lines, more, pos);
      var p := store.entries[profile];
      if p.outputs.Some? && answer.value.change {
        var next := answer.value.next;
        if next < |lines| {
          assert all[next] == lines[next];
        }
        assert SelectByIndex(p.outputs.value.keys, all, next) == SelectByIndex(p.outputs.value.keys, lines, next);
      }
    }
  }
}
