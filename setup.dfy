/**
  The settings the harness derives before it starts a resolver: the
  JSON-ish booleans of the scenario header, the two socket_wrapper
  interface numbers read from the environment, and the environment
  entries `setup_env` writes for the child process.
*/
module Setup {
  import opened Wrappers
  import opened Text
  import opened Document

  /** ASCII lower case, as `str.lower()` of a Python 2 byte string. */
  function LowerChar(c: char): char
  {
    if 'A' <= c <= 'Z' then (c as int + 32) as char else c
  }

  function UpperChar(c: char): char
  {
    if 'a' <= c <= 'z' then (c as int - 32) as char else c
  }

  /** `v.lower()`. */
  function Lower(v: string): (r: string)
    ensures |r| == |v|
  {
    seq(|v|, i requires 0 <= i < |v| => LowerChar(v[i]))
  }

  /** `v` spells the lower-case word `w`, each letter in either case. */
  predicate Spells(v: string, w: string) {
    |v| == |w| && forall i :: 0 <= i < |v| ==> v[i] == w[i] || v[i] == UpperChar(w[i])
  }

  predicate LowerWord(w: string) {
    forall i :: 0 <= i < |w| ==> 'a' <= w[i] <= 'z'
  }

  /** A value lower-cases to a lower-case word exactly when it spells that word. */
  lemma LowerIsWord(v: string, w: string)
    requires LowerWord(w)
    ensures Lower(v) == w <==> Spells(v, w)
  {
    if Spells(v, w) {
      assert forall i :: 0 <= i < |v| ==> Lower(v)[i] == w[i];
    }
    if Lower(v) == w {
      forall i | 0 <= i < |v| ensures v[i] == w[i] || v[i] == UpperChar(w[i]) {
        assert LowerChar(v[i]) == w[i];
      }
    }
  }

  /**
    `str2bool`: the value, in lower case, reads "yes", "true" or "on" -- that
    is, it spells one of those words with each letter in either case.
  */
  function Str2Bool(v: string): (b: bool)
    ensures b <==> Spells(v, "yes") || Spells(v, "true") || Spells(v, "on")
  {
    LowerIsWord(v, "yes");
    LowerIsWord(v, "true");
    LowerIsWord(v, "on");
    Lower(v) in ["yes", "true", "on"]
  }

  /** Lower-casing first changes nothing: `str2bool` ignores case. */
  lemma Str2BoolIgnoresCase(v: string)
    ensures Str2Bool(Lower(v)) == Str2Bool(v)
  {
    assert Lower(Lower(v)) == Lower(v);
  }

  /** The interface numbers of the harness (DEFAULT_IFACE) and of the resolver under test (CHILD_IFACE). */
  datatype Ifaces = Ifaces(harness: int, child: int)

  /** socket_wrapper interface numbers run from 2 to 254. */
  predicate ValidIface(i: int) {
    2 <= i <= 254
  }

  /**
    The normalisation done when the harness loads: an invalid harness
    interface becomes 10; a child interface that is invalid or clashes with
    the harness's becomes the next one up, wrapping round to 2 past 254.
  */
  function NormalIfaces(harness: int, child: int): (r: Ifaces)
    ensures ValidIface(r.harness) && ValidIface(r.child) && r.harness != r.child
    ensures ValidIface(harness) ==> r.harness == harness
    ensures ValidIface(child) && child != r.harness ==> r.child == child
    ensures !ValidIface(harness) ==> r.harness == 10
    ensures !(ValidIface(child) && child != r.harness) ==> r.child == if r.harness == 254 then 2 else r.harness + 1
  {
    var d := if ValidIface(harness) then harness else 10;
    var c := if ValidIface(child) && child != d then child else if d + 1 > 254 then 2 else d + 1;
    Ifaces(d, c)
  }

  /**
    An environment variable read as an interface number: 0 when unset,
    `int(value)` otherwise (Python 2's `int`, which ignores whitespace
    around the value and after its sign); a value that is not a number
    raises, reported with that value.
  */
  function EnvIface(v: Option<string>): (r: Result<int, string>)
    ensures v.None? ==> r == Ok(0)
    ensures r.Err? ==> v.Some? && r.error == v.value
  {
    match v
    case None => Ok(0)
    case Some(s) =>
      match IntOf(s)
      case Some(n) => Ok(n)
      case None => Err(s)
  }

  /**
    DEFAULT_IFACE and CHILD_IFACE from SOCKET_WRAPPER_DEFAULT_IFACE and
    KRESD_WRAPPER_DEFAULT_IFACE: the harness's value is read first, then
    the child's, and both are normalised.
  */
  function Interfaces(harnessEnv: Option<string>, childEnv: Option<string>): (r: Result<Ifaces, string>)
    ensures r.Ok? ==> ValidIface(r.value.harness) && ValidIface(r.value.child) && r.value.harness != r.value.child
  {
    match EnvIface(harnessEnv)
    case Err(s) => Err(s)
    case Ok(d) =>
      match EnvIface(childEnv)
      case Err(s) => Err(s)
      case Ok(c) => Ok(NormalIfaces(d, c))
  }

  /**
    What the module reads from the environment when it is loaded: TEST_DEBUG
    first (0 when unset, `int(value)` otherwise), then the two interfaces.
    A TEST_DEBUG that is not a number raises before either interface is read.
  */
  function ReadEnvironment(debugEnv: Option<string>, harnessEnv: Option<string>, childEnv: Option<string>): (r: Result<(int, Ifaces), string>)
    ensures r.Ok? <==> EnvIface(debugEnv).Ok? && Interfaces(harnessEnv, childEnv).Ok?
    ensures r.Ok? ==> r.value.0 == EnvIface(debugEnv).value && r.value.1 == Interfaces(harnessEnv, childEnv).value
    ensures EnvIface(debugEnv).Err? ==> r.Err? && debugEnv.Some? && r.error == debugEnv.value
    ensures EnvIface(debugEnv).Ok? && r.Err? ==> r == Err(Interfaces(harnessEnv, childEnv).error)
  {
    match EnvIface(debugEnv)
    case Err(s) => Err(s)
    case Ok(level) =>
      match Interfaces(harnessEnv, childEnv)
      case Err(s) => Err(s)
      case Ok(ifs) => Ok((level, ifs))
  }

  /**
    A TEST_DEBUG that holds no digit stops the module with its own text,
    whatever the interface variables hold.
  */
  lemma ReadEnvironmentBadDebug(s: string, harnessEnv: Option<string>, childEnv: Option<string>)
    requires forall i :: 0 <= i < |s| ==> !IsDigit(s[i])
    ensures ReadEnvironment(Some(s), harnessEnv, childEnv) == Err(s)
  {
    EnvIfaceNoDigit(s);
  }

  /** Valid, distinct interface numbers are kept as they are. */
  lemma NormalIfacesKeepsValid(harness: int, child: int)
    requires ValidIface(harness) && ValidIface(child) && harness != child
    ensures NormalIfaces(harness, child) == Ifaces(harness, child)
  {
  }

  /** Normalising twice is normalising once. */
  lemma NormalIfacesIdempotent(harness: int, child: int)
    ensures var r := NormalIfaces(harness, child); NormalIfaces(r.harness, r.child) == r
  {
    var r := NormalIfaces(harness, child);
    NormalIfacesKeepsValid(r.harness, r.child);
  }

  /**
    A variable holding a number's decimal text, with any whitespace around
    it, reads as that number.
  */
  lemma EnvIfacePadded(p: string, n: int, q: string)
    requires AllSpace(p) && AllSpace(q)
    ensures EnvIface(Some(p + IntToString(n) + q)) == Ok(n)
  {
    IntOfPadded(p, n, q);
  }

  /** A variable that is set but holds no digit at all is not a number: `int()` raises with that text. */
  lemma EnvIfaceNoDigit(s: string)
    requires forall i :: 0 <= i < |s| ==> !IsDigit(s[i])
    ensures EnvIface(Some(s)) == Err(s)
  {
    IntOfNoDigit(s);
  }

  /**
    The interfaces read, rendered with `"{}".format(...)`, read back as the
    same interfaces: normalisation has nothing left to change on them.  The
    source writes a value back only when it replaced it; a valid value
    keeps its original text, which reads as the same number.
  */
  lemma InterfacesWrittenBack(harnessEnv: Option<string>, childEnv: Option<string>)
    requires Interfaces(harnessEnv, childEnv).Ok?
    ensures var r := Interfaces(harnessEnv, childEnv).value;
      Interfaces(Some(IntToString(r.harness)), Some(IntToString(r.child))) == Ok(r)
  {
    var r := Interfaces(harnessEnv, childEnv).value;
    EnvIfacePadded([], r.harness, []);
    EnvIfacePadded([], r.child, []);
    assert [] + IntToString(r.harness) + [] == IntToString(r.harness);
    assert [] + IntToString(r.child) + [] == IntToString(r.child);
    NormalIfacesKeepsValid(r.harness, r.child);
  }

  /** A config entry that turns minimisation on: `query-minimization` with a true value. */
  predicate Enables(kv: seq<string>) {
    |kv| == 2 && kv[0] == "query-minimization" && Str2Bool(kv[1])
  }

  /**
    The value `setup_env` leaves in CONFIG_NO_MINIMIZE: "0" as soon as an
    entry enables minimisation, "1" when none does; `for k, v in config`
    raises on the first entry that is not a pair before that, reported
    with its fields.
  */
  function NoMinimize(config: Config): (r: Result<string, seq<string>>)
    ensures r.Ok? ==> r.value == "0" || r.value == "1"
    ensures r.Err? ==> |r.error| != 2
  {
    if config == [] then Ok("1")
    else if |config[0]| != 2 then Err(config[0])
    else if Enables(config[0]) then Ok("0")
    else NoMinimize(config[1..])
  }

  /**
    The first entry that is not a pair or that enables minimisation
    decides: "1" when there is none, the failure when it is not a pair,
    "0" when it enables minimisation.
  */
  lemma {:induction false} NoMinimizeFirst(config: Config, k: nat)
    requires k <= |config|
    requires forall j :: 0 <= j < k ==> |config[j]| == 2 && !Enables(config[j])
    requires k < |config| ==> |config[k]| != 2 || Enables(config[k])
    ensures NoMinimize(config) ==
      if k == |config| then Ok("1")
      else if |config[k]| != 2 then Err(config[k])
      else Ok("0")
  {
    if k > 0 {
      assert |config[0]| == 2 && !Enables(config[0]);
      NoMinimizeFirst(config[1..], k - 1);
    }
  }

  /** The three entries `setup_env` writes before it looks at the config. */
  function ChildBase(env: map<string, string>, child: int, tmpdir: string): map<string, string>
  {
    env["SOCKET_WRAPPER_DEFAULT_IFACE" := IntToString(child)]["SOCKET_WRAPPER_DIR" := tmpdir]["CONFIG_NO_MINIMIZE" := "1"]
  }

  /**
    The child environment `setup_env` prepares: the interface and socket
    directory of the child, CONFIG_NO_MINIMIZE set to "1" and turned to
    "0" by the first entry that enables minimisation.  When an entry that
    is not a pair comes first the loop stops there, leaving the dictionary
    as it was at that moment, and `err` holds that entry.
  */
  method SetupChildEnv(env: map<string, string>, config: Config, child: int, tmpdir: string)
    returns (childEnv: map<string, string>, err: Option<seq<string>>)
    ensures err.None? <==> NoMinimize(config).Ok?
    ensures err.Some? ==> err.value == NoMinimize(config).error
    ensures childEnv == ChildBase(env, child, tmpdir)["CONFIG_NO_MINIMIZE" := if NoMinimize(config) == Ok("0") then "0" else "1"]
  {
    childEnv := env;
    childEnv := childEnv["SOCKET_WRAPPER_DEFAULT_IFACE" := IntToString(child)];
    childEnv := childEnv["SOCKET_WRAPPER_DIR" := tmpdir];
    childEnv := childEnv["CONFIG_NO_MINIMIZE" := "1"];
    err := None;
    var i := 0;
    while i < |config|
      invariant 0 <= i <= |config|
      invariant NoMinimize(config) == NoMinimize(config[i..])
      invariant childEnv == ChildBase(env, child, tmpdir)
    {
      var kv := config[i];
      if |kv| != 2 {
        err := Some(kv);
        return;
      }
      var k, v := kv[0], kv[1];
      if k == "query-minimization" && Str2Bool(v) {
        childEnv := childEnv["CONFIG_NO_MINIMIZE" := "0"];
        return;
      }
      assert config[i..][1..] == config[i + 1..];
      i := i + 1;
    }
  }
}
