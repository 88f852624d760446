/** The process configuration read from the environment at import time (config.py):
    the required-variable rule of `get_env` and the derived settings. */
module Config {
  import opened Common
  import opened Text

  /** The process environment after `.env` has been loaded: variable name to value. */
  type Env = map<string, string>

  /** `sys.exit(1)` after reporting the missing variable `key`. */
  datatype Exit = Exit(code: int, key: string)

  const DefaultRelayUrl := "ws://localhost:8765"
  const PadreWsUrl := "wss://backend.padre.gg/_multiplex"

  /** `os.getenv(key)`: `None` when the variable is unset. */
  function Lookup(env: Env, key: string): Option<string>
  {
    if key in env then Some(env[key]) else None
  }

  /** `os.getenv(key, default)`: the default only when the variable is unset
      (a variable set to the empty string yields the empty string). */
  function LookupOr(env: Env, key: string, default: string): (r: string)
    ensures key !in env ==> r == default
    ensures key in env ==> r == env[key]
  {
    match Lookup(env, key)
    case Some(v) => v
    case None => default
  }

  /** The variable is set to a non-empty value, i.e. `os.getenv(key)` is truthy. */
  predicate Present(env: Env, key: string)
  {
    key in env && env[key] != ""
  }

  /** `get_env(key, required)`: the value of the variable, or the process exits when the
      variable is missing or empty and `required` holds. */
  function GetEnv(env: Env, key: string, required: bool): (r: Result<Option<string>, Exit>)
    ensures r.Err? <==> required && !Present(env, key)
    ensures r.Err? ==> r.error == Exit(1, key)
    ensures r.Ok? ==> r.value == Lookup(env, key)
    ensures r.Ok? && required ==> r.value.Some? && r.value.value != ""
  {
    var val := Lookup(env, key);
    var truthy := val.Some? && val.value != "";
    if !truthy && required then Err(Exit(1, key)) else Ok(val)
  }

  /** Every name is non-empty and already stripped. */
  predicate AllClean(names: seq<string>)
  {
    forall k :: 0 <= k < |names| ==> names[k] != "" && Strip(names[k]) == names[k]
  }

  lemma AllCleanAppend(x: seq<string>, y: seq<string>)
    requires AllClean(x) && AllClean(y)
    ensures AllClean(x + y)
  {
    forall k | 0 <= k < |x + y|
      ensures (x + y)[k] != "" && Strip((x + y)[k]) == (x + y)[k]
    {
      if k >= |x| {
        assert (x + y)[k] == y[k - |x|];
      }
    }
  }

  /** What one piece contributes to the comprehension: its `strip()`, unless that is empty. */
  function Kept(piece: string): (r: seq<string>)
    ensures |r| <= 1 && AllClean(r)
  {
    var u := Strip(piece);
    if u == "" then []
    else
      StrippedIsClean(piece);
      [u]
  }

  lemma StrippedIsClean(piece: string)
    ensures Strip(piece) != "" ==> AllClean([Strip(piece)])
  {
    StripIdempotent(piece);
  }

  /** The strip-and-drop-empty comprehension applied to the comma-separated pieces. */
  function Clean(pieces: seq<string>): (r: seq<string>)
    ensures |r| <= |pieces|
    ensures AllClean(r)
  {
    if pieces == [] then []
    else
      var head, tail := Kept(pieces[0]), Clean(pieces[1..]);
      AllCleanAppend(head, tail);
      head + tail
  }

  /** `[u.strip() for u in raw.split(",") if u.strip()]`: the empty string gives no targets,
      and a comma-free value gives its stripped form, or nothing when that is blank. */
  function ParseTargets(raw: string): (r: seq<string>)
    ensures AllClean(r)
    ensures raw == "" ==> r == []
    ensures ',' !in raw ==> r == if Strip(raw) == "" then [] else [Strip(raw)]
  {
    ParseOne(raw);
    Clean(Split(raw, ','))
  }

  lemma ParseOne(raw: string)
    ensures ',' !in raw ==> Clean(Split(raw, ',')) == if Strip(raw) == "" then [] else [Strip(raw)]
  {
    if ',' !in raw {
      SplitWord(raw, ',');
      CleanOne(raw);
    }
  }

  /** `TARGET_USERNAMES`, read with the empty string as default: no targets when unset. */
  function TargetUsernames(env: Env): (r: seq<string>)
    ensures AllClean(r)
    ensures "TARGET_USERNAMES" !in env ==> r == []
  {
    ParseTargets(LookupOr(env, "TARGET_USERNAMES", ""))
  }

  /** `value.lower() == "true"`: on exactly for four characters that lower-case to `true`. */
  function IsTrueFlag(value: string): (r: bool)
    ensures r <==> |value| == 4 && forall i :: 0 <= i < 4 ==> LowerChar(value[i]) == "true"[i]
  {
    LowerEquals(value, "true");
    Lower(value) == "true"
  }

  /** `FILTER_ONLY_TARGETS`, read with `"false"` as default: off when unset. */
  function FilterOnlyTargets(env: Env): (r: bool)
    ensures "FILTER_ONLY_TARGETS" !in env ==> !r
    ensures "FILTER_ONLY_TARGETS" in env ==> (r <==> IsTrueFlag(env["FILTER_ONLY_TARGETS"]))
  {
    IsTrueFlag(LookupOr(env, "FILTER_ONLY_TARGETS", "false"))
  }

  /** `RELAY_URL`, read with the local relay as default. */
  function RelayUrl(env: Env): (r: string)
    ensures "RELAY_URL" !in env ==> r == DefaultRelayUrl
    ensures "RELAY_URL" in env ==> r == env["RELAY_URL"]
  {
    LookupOr(env, "RELAY_URL", DefaultRelayUrl)
  }

  /** The module-level values config.py defines. */
  datatype Settings = Settings(
    padreToken: string,
    padreUid: string,
    relayUrl: string,
    targetUsernames: seq<string>,
    filterOnlyTargets: bool,
    padreWsUrl: string)

  /** Importing config.py: the two required variables are checked in order
      (`PADRE_TOKEN` first, then `PADRE_UID`); the first one missing ends the process. */
  function Load(env: Env): (r: Result<Settings, Exit>)
    ensures r.Ok? <==> Present(env, "PADRE_TOKEN") && Present(env, "PADRE_UID")
    ensures r.Err? ==> r.error == Exit(1, if Present(env, "PADRE_TOKEN") then "PADRE_UID" else "PADRE_TOKEN")
    ensures r.Ok? ==> r.value.padreToken == env["PADRE_TOKEN"] != "" && r.value.padreUid == env["PADRE_UID"] != ""
    ensures r.Ok? ==> AllClean(r.value.targetUsernames)
    ensures r.Ok? ==> r.value == Settings(env["PADRE_TOKEN"], env["PADRE_UID"], RelayUrl(env),
                                          TargetUsernames(env), FilterOnlyTargets(env), PadreWsUrl)
  {
    match GetEnv(env, "PADRE_TOKEN", true)
    case Err(e) => Err(e)
    case Ok(token) =>
      match GetEnv(env, "PADRE_UID", true)
      case Err(e) => Err(e)
      case Ok(uid) =>
        Ok(Settings(token.value, uid.value, RelayUrl(env), TargetUsernames(env),
                    FilterOnlyTargets(env), PadreWsUrl))
  }

  /** Pieces that are already stripped and non-empty are kept as they are, in their order. */
  lemma {:induction false} CleanKeeps(pieces: seq<string>)
    requires AllClean(pieces)
    ensures Clean(pieces) == pieces
  {
    if pieces != [] {
      CleanKeeps(pieces[1..]);
      assert [pieces[0]] + pieces[1..] == pieces;
    }
  }

  /** Each piece contributes on its own: cleaning a concatenation is concatenating the cleaned
      parts, so (with `CleanOne`) every piece yields its stripped form or nothing, in order. */
  lemma {:induction false} CleanAppend(a: seq<string>, b: seq<string>)
    ensures Clean(a + b) == Clean(a) + Clean(b)
    decreases |a|
  {
    if a == [] {
      assert a + b == b;
    } else {
      CleanAppend(a[1..], b);
      CleanFront(a, b);
      CleanFirst(a);
      AppendAssoc(Kept(a[0]), Clean(a[1..]), Clean(b));
    }
  }

  lemma AppendAssoc(x: seq<string>, y: seq<string>, z: seq<string>)
    ensures x + (y + z) == (x + y) + z
  {
  }

  lemma CleanFirst(a: seq<string>)
    requires a != []
    ensures Clean(a) == Kept(a[0]) + Clean(a[1..])
  {
  }

  lemma CleanFront(a: seq<string>, b: seq<string>)
    requires a != []
    ensures Clean(a + b) == Kept(a[0]) + Clean(a[1..] + b)
  {
    assert (a + b)[1..] == a[1..] + b;
  }

  /** A comma-free piece contributes exactly its stripped form, or nothing if that is empty. */
  lemma CleanOne(piece: string)
    ensures Clean([piece]) == if Strip(piece) == "" then [] else [Strip(piece)]
  {
    assert [piece][1..] == [];
  }

  /** Parsing a comma-joined list of comma-free pieces gives the stripped, non-empty pieces
      in their original order; a list of names already in that form parses back to itself. */
  lemma ParseJoinedTargets(pieces: seq<string>)
    requires |pieces| >= 1
    requires forall k :: 0 <= k < |pieces| ==> ',' !in pieces[k]
    ensures ParseTargets(Join(pieces, ',')) == Clean(pieces)
    ensures AllClean(pieces)
      ==> ParseTargets(Join(pieces, ',')) == pieces
  {
    SplitJoin(pieces, ',');
    if AllClean(pieces) {
      CleanKeeps(pieces);
    }
  }

  /** An unset, empty or all-blank `TARGET_USERNAMES` gives no targets. */
  lemma TargetsUnsetOrBlank(env: Env)
    requires "TARGET_USERNAMES" in env ==>
      ',' !in env["TARGET_USERNAMES"] && Strip(env["TARGET_USERNAMES"]) == ""
    ensures TargetUsernames(env) == []
  {
    var raw := LookupOr(env, "TARGET_USERNAMES", "");
    SplitWord(raw, ',');
    CleanOne(raw);
  }

  /** The default and the usual "truthy" spellings other than "true" leave the flag off. */
  lemma FlagExamples(env: Env)
    ensures "FILTER_ONLY_TARGETS" !in env ==> !FilterOnlyTargets(env)
    ensures IsTrueFlag("TRUE") && IsTrueFlag("True") && IsTrueFlag("true")
    ensures !IsTrueFlag("1") && !IsTrueFlag("yes") && !IsTrueFlag("false") && !IsTrueFlag("")
    ensures !IsTrueFlag(" true")
  {
  }
}
