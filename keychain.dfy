/** The macOS facade (keychain.js) and the pieces it shares with the Linux
    facade: the checks on the options object, the handling of a child
    process's exit status and output, and the argument vectors given to
    `/usr/bin/security`. The `security` tool itself is stood in for by a
    function over an abstract store of passwords keyed by account and
    service. */
module Keychain {
  import opened Text

  // ---------------------------------------------------------------------
  // The options object and its checks

  /** The fields of `opts` the facades read; a field that is absent,
      `null` or otherwise falsy is None or "". `kind` is the `type` field,
      which callers pass but no operation reads. */
  datatype Opts = Opts(
    account: Option<string>,
    service: Option<string>,
    password: Option<string>,
    kind: Option<string>)

  /** JavaScript's truthiness of an optional string field. */
  predicate Present(v: Option<string>) { v.Some? && v.value != "" }

  const AccountRequired := "An account is required"
  const ServiceRequired := "A service is required"
  const PasswordRequired := "A password is required"
  const NotFound := "Could not find password"
  const NonSuccessPrefix := "Security returned a non-successful error code: "

  /** The guards at the top of every operation (keychain.js:36-46, 79-95,
      138-148): the account first, then the service, then, for a set, the
      password; None when all pass. */
  function Validate(o: Opts, needPassword: bool): (err: Option<string>)
    ensures err.None? <==> Present(o.account) && Present(o.service) &&
                           (needPassword ==> Present(o.password))
    ensures !Present(o.account) ==> err == Some(AccountRequired)
    ensures Present(o.account) && !Present(o.service) ==> err == Some(ServiceRequired)
    ensures Present(o.account) && Present(o.service) && !Present(o.password) && needPassword ==>
              err == Some(PasswordRequired)
  {
    if !Present(o.account) then Some(AccountRequired)
    else if !Present(o.service) then Some(ServiceRequired)
    else if needPassword && !Present(o.password) then Some(PasswordRequired)
    else None
  }

  /** The three messages are told apart, so a caller can see which check
      failed. */
  lemma MessagesDistinct()
    ensures AccountRequired != ServiceRequired && ServiceRequired != PasswordRequired
    ensures AccountRequired != PasswordRequired
    ensures NotFound !in {AccountRequired, ServiceRequired, PasswordRequired}
  {
    assert AccountRequired[1] != ServiceRequired[1];
    assert ServiceRequired[2] != PasswordRequired[2];
    assert AccountRequired[1] != PasswordRequired[1];
    assert NotFound[0] != AccountRequired[0];
  }

  // ---------------------------------------------------------------------
  // A child process: how it ended and what it wrote

  /** The arguments of the `exit` event: an exit code, or a signal (the
      code is then `null`). */
  datatype ExitStatus = Exited(code: int) | Signalled

  /** The code as JavaScript's `'' + code` writes it. */
  function CodeText(s: ExitStatus): string
  {
    match s
    case Exited(c) => IntToString(c)
    case Signalled => "null"
  }

  /** The code written into a message can be read back. */
  lemma CodeTextReadsBack(s: ExitStatus)
    ensures s.Exited? ==> ParseInt(CodeText(s)) == Some(s.code)
    ensures s.Signalled? ==> ParseInt(CodeText(s)) == None
  {
    if s.Exited? {
      ParseIntOfIntToString(s.code, "");
      assert IntToString(s.code) + "" == IntToString(s.code);
    } else {
      assert TrimStart("null") == "null";
      assert TrimEnd("null") == "null";
    }
  }

  /** One `data` event, on standard output or on standard error, as the
      text its `d.toString()` gives. */
  datatype Chunk = Out(text: string) | Err(text: string)

  /** The text a listener keeps from one chunk. */
  function Kept(c: Chunk, withStderr: bool): string
  {
    match c
    case Out(t) => t
    case Err(t) => if withStderr then t else ""
  }

  /** All the text kept from the chunks, in arrival order. */
  function Captured(chunks: seq<Chunk>, withStderr: bool): string
  {
    if |chunks| == 0 then ""
    else Captured(chunks[..|chunks| - 1], withStderr) + Kept(chunks[|chunks| - 1], withStderr)
  }

  /** However the output is cut into chunks, the same text is kept. */
  lemma {:induction false} CapturedAppend(a: seq<Chunk>, b: seq<Chunk>, withStderr: bool)
    ensures Captured(a + b, withStderr) == Captured(a, withStderr) + Captured(b, withStderr)
    decreases |b|
  {
    if |b| == 0 {
      assert a + b == a;
    } else {
      var ab := a + b;
      var b' := b[..|b| - 1];
      assert ab[..|ab| - 1] == a + b';
      assert ab[|ab| - 1] == b[|b| - 1];
      CapturedAppend(a, b', withStderr);
      Associate(Captured(a, withStderr), Captured(b', withStderr), Kept(b[|b| - 1], withStderr));
    }
  }

  /** A listener on standard output only ignores what arrives on standard
      error. */
  lemma {:induction false} StderrIgnored(chunks: seq<Chunk>, t: string)
    ensures Captured(chunks + [Err(t)], false) == Captured(chunks, false)
    ensures Captured(chunks + [Err(t)], true) == Captured(chunks, true) + t
  {
    var c := chunks + [Err(t)];
    assert c[..|c| - 1] == chunks;
  }

  /** The `data` listeners: each chunk's text appended as it arrives
      (keychain.js:49-53; platforms/linux.js:65-76, 107-117). */
  method Collect(chunks: seq<Chunk>, withStderr: bool) returns (text: string)
    ensures text == Captured(chunks, withStderr)
  {
    text := "";
    var i := 0;
    while i < |chunks|
      invariant 0 <= i <= |chunks|
      invariant text == Captured(chunks[..i], withStderr)
    {
      match chunks[i] {
        case Out(t) =>
          text := text + t;
        case Err(t) =>
          if withStderr {
            text := text + t;
          }
      }
      assert chunks[..i + 1][..i] == chunks[..i];
      i := i + 1;
    }
    assert chunks[..|chunks|] == chunks;
  }

  // ---------------------------------------------------------------------
  // `password.replace('\n', '')`

  /** JavaScript's `s.replace('\n', '')`. */
  function StripFirstNewline(s: string): string
  {
    if |s| == 0 then ""
    else if s[0] == '\n' then s[1..]
    else [s[0]] + StripFirstNewline(s[1..])
  }

  /** Only the first newline is removed; the text around it and every
      later newline are kept. */
  lemma {:induction false} StripRemovesFirst(s: string)
    ensures var i := IndexOf(s, '\n');
            StripFirstNewline(s) == if i < 0 then s else s[..i] + s[i + 1..]
  {
    if |s| > 0 && s[0] != '\n' {
      var t := s[1..];
      StripRemovesFirst(t);
      var k := IndexOf(t, '\n');
      assert s == [s[0]] + t;
      if k >= 0 {
        assert IndexOf(s, '\n') == k + 1;
        assert s[..k + 1] == [s[0]] + t[..k];
        assert s[k + 2..] == t[k + 1..];
        Associate([s[0]], t[..k], t[k + 1..]);
      }
    }
  }

  /** Once a newline occurs, every later character is a newline. */
  predicate NewlinesTrail(p: string)
  {
    forall i, j :: 0 <= i <= j < |p| && p[i] == '\n' ==> p[j] == '\n'
  }

  /** All characters from `i` on are newlines when each equals its
      successor and the last is a newline. */
  lemma {:induction false} NewlinesFrom(t: string, i: nat)
    requires |t| > 0 && t[|t| - 1] == '\n'
    requires forall j :: 0 <= j < |t| - 1 ==> t[j] == t[j + 1]
    requires i < |t|
    ensures forall j :: i <= j < |t| ==> t[j] == '\n'
    decreases |t| - i
  {
    if i < |t| - 1 {
      NewlinesFrom(t, i + 1);
      assert t[i] == t[i + 1];
    }
  }

  /** Shifting a text left by one and appending a newline leaves it as it
      is exactly when it consists of newlines. */
  lemma ShiftedByNewline(t: string)
    requires |t| > 0
    ensures t[1..] + "\n" == t <==> forall j :: 0 <= j < |t| ==> t[j] == '\n'
  {
    var u := t[1..] + "\n";
    if u == t {
      forall j | 0 <= j < |t| - 1
        ensures t[j] == t[j + 1]
      {
        assert u[j] == t[j + 1];
      }
      assert t[|t| - 1] == u[|t| - 1];
      NewlinesFrom(t, 0);
    }
    if forall j :: 0 <= j < |t| ==> t[j] == '\n' {
      forall j | 0 <= j < |t|
        ensures u[j] == t[j]
      {
        if j < |t| - 1 {
          assert u[j] == t[j + 1];
        }
      }
    }
  }

  /** Equal prefixes cancel. */
  lemma Cancel(a: string, x: string, y: string)
    ensures a + x == a + y <==> x == y
  {
    if a + x == a + y {
      assert (a + x)[|a|..] == x && (a + y)[|a|..] == y;
    }
  }

  /** A leading character other than a newline does not matter to
      `NewlinesTrail`. */
  lemma TrailAfterOther(p: string)
    requires |p| > 0 && p[0] != '\n'
    ensures NewlinesTrail(p) <==> NewlinesTrail(p[1..])
  {
    var t := p[1..];
    if NewlinesTrail(p) {
      forall i, j | 0 <= i <= j < |t| && t[i] == '\n'
        ensures t[j] == '\n'
      {
        assert t[i] == p[i + 1] && t[j] == p[j + 1];
      }
    }
    if NewlinesTrail(t) {
      forall i, j | 0 <= i <= j < |p| && p[i] == '\n'
        ensures p[j] == '\n'
      {
        assert p[i] == t[i - 1] && p[j] == t[j - 1];
      }
    }
  }

  /** `security -w` ends the password with a newline. Stripping the first
      newline gives the password back exactly when no other character
      follows a newline in it; a password without newlines always comes
      back. */
  lemma {:induction false} StripAppendedNewline(p: string)
    ensures StripFirstNewline(p + "\n") == p <==> NewlinesTrail(p)
    ensures '\n' !in p ==> StripFirstNewline(p + "\n") == p
  {
    var q := p + "\n";
    if |p| == 0 {
      assert q == "\n";
    } else {
      assert q[1..] == p[1..] + "\n";
      if p[0] == '\n' {
        ShiftedByNewline(p);
        if forall j :: 0 <= j < |p| ==> p[j] == '\n' {
          assert NewlinesTrail(p);
        }
      } else {
        StripAppendedNewline(p[1..]);
        assert p == [p[0]] + p[1..];
        Cancel([p[0]], StripFirstNewline(p[1..] + "\n"), p[1..]);
        TrailAfterOther(p);
      }
    }
  }

  /** A password holding a newline in the middle is not given back as
      stored. */
  lemma InnerNewlineMangled()
    ensures StripFirstNewline("a\nb" + "\n") == "ab\n"
    ensures !NewlinesTrail("a\nb")
  {
    assert "a\nb" + "\n" == "a\nb\n";
    assert "a\nb"[1] == '\n' && "a\nb"[2] != '\n';
  }

  // ---------------------------------------------------------------------
  // Commands and the reactions to their exit

  /** One spawned process: the executable and its argument vector. */
  datatype Command = Command(exe: string, argv: seq<string>)

  const SecurityPath := "/usr/bin/security"

  /** keychain.js:48 */
  function FindArgv(account: string, service: string): seq<string>
  {
    ["find-generic-password", "-a", account, "-s", service, "-w"]
  }

  /** keychain.js:97 */
  function AddArgv(account: string, service: string, password: string): seq<string>
  {
    ["add-generic-password", "-a", account, "-s", service, "-w", password]
  }

  /** keychain.js:150 */
  function DeleteArgv(account: string, service: string): seq<string>
  {
    ["delete-generic-password", "-a", account, "-s", service]
  }

  /** What a lookup reports once its child exits (keychain.js:55-63): any
      status but code 0 is "not found"; otherwise the captured text with
      its first newline removed. */
  function FindReaction(status: ExitStatus, captured: string): (r: Result<string, string>)
    ensures r.Failure? <==> status != Exited(0)
    ensures r.Failure? ==> r.error == NotFound
    ensures r.Success? ==> r.value == StripFirstNewline(captured)
  {
    if status != Exited(0) then Failure(NotFound) else Success(StripFirstNewline(captured))
  }

  /** What a set does once its `add` child exits. */
  datatype AddStep = Added | Duplicate | AddFailed(message: string)

  /** keychain.js:100-122: code 0 succeeds, code 45 (the item exists)
      asks for delete-and-retry, anything else (a signal too) fails with
      the status in the message. */
  function AddReaction(status: ExitStatus): (r: AddStep)
    ensures r == Added <==> status == Exited(0)
    ensures r == Duplicate <==> status == Exited(45)
    ensures r.AddFailed? ==> r.message == NonSuccessPrefix + CodeText(status)
  {
    if status == Exited(0) then Added
    else if status == Exited(45) then Duplicate
    else AddFailed(NonSuccessPrefix + CodeText(status))
  }

  /** The message of a failed add ends with the status, which reads back
      as the exit code (or does not read as a number after a signal). */
  lemma AddFailureNamesCode(status: ExitStatus)
    requires AddReaction(status).AddFailed?
    ensures var m := AddReaction(status).message;
            |m| >= |NonSuccessPrefix| && m[..|NonSuccessPrefix|] == NonSuccessPrefix &&
            ParseInt(m[|NonSuccessPrefix|..]) == (if status.Exited? then Some(status.code) else None)
  {
    var m := AddReaction(status).message;
    assert m[|NonSuccessPrefix|..] == CodeText(status);
    CodeTextReadsBack(status);
  }

  /** What a delete reports once its child exits (keychain.js:152-159). */
  function DeleteReaction(status: ExitStatus): (r: Outcome<string>)
    ensures r == Pass <==> status == Exited(0)
    ensures r.Fail? ==> r.error == NotFound
  {
    if status != Exited(0) then Fail(NotFound) else Pass
  }

  // ---------------------------------------------------------------------
  // The `security` tool over an abstract store

  type Key = (string, string)

  /** The generic passwords in the keychain, by account and service. */
  type Store = map<Key, string>

  /** How a run of `security` ended, what it wrote and the store after. */
  datatype Run = Run(status: ExitStatus, chunks: seq<Chunk>, after: Store)

  /** The stand-in for `/usr/bin/security` on the three argument vectors
      the facade builds: a lookup writes the password and a newline, or
      exits 44 when there is none; an add exits 45 when the item exists
      and stores the password otherwise; a delete removes the item, or
      exits 44 when there is none. Any other vector exits 1. The codes 44
      and 1 stand for any status other than 0 and 45: the facade tells
      only those two apart. The password is written as given, never in
      the tool's hexadecimal form. */
  function Security(store: Store, argv: seq<string>): Run
  {
    if |argv| == 6 && argv == FindArgv(argv[2], argv[4]) then
      var key := (argv[2], argv[4]);
      if key in store then Run(Exited(0), [Out(store[key] + "\n")], store)
      else Run(Exited(44), [], store)
    else if |argv| == 7 && argv == AddArgv(argv[2], argv[4], argv[6]) then
      var key := (argv[2], argv[4]);
      if key in store then Run(Exited(45), [], store)
      else Run(Exited(0), [], store[key := argv[6]])
    else if |argv| == 5 && argv == DeleteArgv(argv[2], argv[4]) then
      var key := (argv[2], argv[4]);
      if key in store then Run(Exited(0), [], store - {key})
      else Run(Exited(44), [], store)
    else Run(Exited(1), [], store)
  }

  lemma SecurityFind(store: Store, a: string, s: string)
    ensures Security(store, FindArgv(a, s)) ==
            if (a, s) in store then Run(Exited(0), [Out(store[(a, s)] + "\n")], store)
            else Run(Exited(44), [], store)
  {
  }

  lemma SecurityAdd(store: Store, a: string, s: string, p: string)
    ensures Security(store, AddArgv(a, s, p)) ==
            if (a, s) in store then Run(Exited(45), [], store)
            else Run(Exited(0), [], store[(a, s) := p])
  {
    assert |FindArgv(a, s)| != 7;
  }

  lemma SecurityDelete(store: Store, a: string, s: string)
    ensures Security(store, DeleteArgv(a, s)) ==
            if (a, s) in store then Run(Exited(0), [], store - {(a, s)})
            else Run(Exited(44), [], store)
  {
  }

  // ---------------------------------------------------------------------
  // The three operations against the store

  /** The key of options that passed their checks. */
  function KeyOf(o: Opts): Key
    requires o.account.Some? && o.service.Some?
  {
    (o.account.value, o.service.value)
  }

  /** `getPassword` (keychain.js:32-65): the result and the processes
      started; a lookup leaves the store as it is. */
  function MacGet(store: Store, o: Opts): (Result<string, string>, seq<Command>)
  {
    match Validate(o, false)
    case Some(e) => (Failure(e), [])
    case None =>
      var argv := FindArgv(o.account.value, o.service.value);
      var run := Security(store, argv);
      (FindReaction(run.status, Captured(run.chunks, false)), [Command(SecurityPath, argv)])
  }

  /** `deletePassword` (keychain.js:134-160): the result, the store after
      and the processes started. */
  function MacDelete(store: Store, o: Opts): (Outcome<string>, Store, seq<Command>)
  {
    match Validate(o, false)
    case Some(e) => (Fail(e), store, [])
    case None =>
      var argv := DeleteArgv(o.account.value, o.service.value);
      var run := Security(store, argv);
      (DeleteReaction(run.status), run.after, [Command(SecurityPath, argv)])
  }

  /** `setPassword` (keychain.js:75-124). On code 45 it deletes the item
      and calls itself again; the call terminates because the delete
      removed the item, so the second add cannot exit 45. */
  function MacSet(store: Store, o: Opts): (Outcome<string>, Store, seq<Command>)
    decreases if Validate(o, true).None? && KeyOf(o) in store then 1 else 0
  {
    match Validate(o, true)
    case Some(e) => (Fail(e), store, [])
    case None =>
      var argv := AddArgv(o.account.value, o.service.value, o.password.value);
      var run := Security(store, argv);
      var add := Command(SecurityPath, argv);
      match AddReaction(run.status)
      case Added => (Pass, run.after, [add])
      case AddFailed(m) => (Fail(m), run.after, [add])
      case Duplicate =>
        SecurityAdd(store, o.account.value, o.service.value, o.password.value);
        var d := MacDelete(run.after, o);
        SecurityDelete(run.after, o.account.value, o.service.value);
        if d.0.Fail? then (d.0, d.1, [add] + d.2)
        else
          var again := MacSet(d.1, o);
          (again.0, again.1, [add] + d.2 + again.2)
  }

  /** A rejected call starts no process and changes nothing
      (keychain.js:36-46, 79-95, 138-148). */
  lemma RejectedWithoutSpawn(store: Store, o: Opts)
    ensures Validate(o, false).Some? ==>
              MacGet(store, o) == (Failure(Validate(o, false).value), []) &&
              MacDelete(store, o) == (Fail(Validate(o, false).value), store, [])
    ensures Validate(o, true).Some? ==> MacSet(store, o) == (Fail(Validate(o, true).value), store, [])
  {
  }

  /** Each valid call runs `/usr/bin/security` once with its fixed
      argument vector (keychain.js:21, 48, 97, 150); a set on a new key
      runs only the add. */
  lemma MacArgv(store: Store, o: Opts)
    requires Validate(o, false).None?
    ensures var a, s := o.account.value, o.service.value;
            MacGet(store, o).1 ==
              [Command("/usr/bin/security", ["find-generic-password", "-a", a, "-s", s, "-w"])] &&
            MacDelete(store, o).2 ==
              [Command("/usr/bin/security", ["delete-generic-password", "-a", a, "-s", s])]
    ensures Validate(o, true).None? && KeyOf(o) !in store ==>
            MacSet(store, o).2 ==
              [Command("/usr/bin/security",
                       ["add-generic-password", "-a", o.account.value, "-s", o.service.value,
                        "-w", o.password.value])]
  {
    if Validate(o, true).None? {
      SecurityAdd(store, o.account.value, o.service.value, o.password.value);
    }
  }

  /** The `type` field is never consulted (keychain.js:48, 97, 150). */
  lemma KindIgnored(store: Store, o: Opts, kind: Option<string>)
    ensures MacGet(store, o.(kind := kind)) == MacGet(store, o)
    ensures MacDelete(store, o.(kind := kind)) == MacDelete(store, o)
    ensures MacSet(store, o.(kind := kind)) == MacSet(store, o)
  {
    var o2 := o.(kind := kind);
    assert Validate(o2, true) == Validate(o, true);
    if Validate(o, true).None? {
      var k := KeyOf(o);
      SecurityAdd(store, k.0, k.1, o.password.value);
      SecurityDelete(store, k.0, k.1);
      if k in store {
        SecurityAdd(store - {k}, k.0, k.1, o.password.value);
      }
    }
  }

  /** A successful check means a set succeeds and leaves the store mapping
      the key to the password: one `add` for a new key, `add`, `delete`,
      `add` for an existing one (keychain.js:100-122). */
  lemma SetStores(store: Store, o: Opts)
    requires Validate(o, true).None?
    ensures MacSet(store, o).0 == Pass
    ensures MacSet(store, o).1 == store[KeyOf(o) := o.password.value]
    ensures var a, s, p := o.account.value, o.service.value, o.password.value;
            MacSet(store, o).2 ==
            if KeyOf(o) in store
            then [Command(SecurityPath, AddArgv(a, s, p)), Command(SecurityPath, DeleteArgv(a, s)),
                  Command(SecurityPath, AddArgv(a, s, p))]
            else [Command(SecurityPath, AddArgv(a, s, p))]
  {
    var k := KeyOf(o);
    var a, s, p := o.account.value, o.service.value, o.password.value;
    SecurityAdd(store, a, s, p);
    if k in store {
      SecurityDelete(store, a, s);
      SecurityAdd(store - {k}, a, s, p);
      assert (store - {k})[k := p] == store[k := p];
    }
  }

  /** Setting the same password twice in a row succeeds both times
      (test/keychain.test.js:44-60). */
  lemma SetTwice(store: Store, o: Opts)
    requires Validate(o, true).None?
    ensures var first := MacSet(store, o);
            var second := MacSet(first.1, o);
            first.0 == Pass && second.0 == Pass && second.1 == first.1
  {
    SetStores(store, o);
    SetStores(MacSet(store, o).1, o);
    var k := KeyOf(o);
    assert store[k := o.password.value][k := o.password.value] == store[k := o.password.value];
  }

  /** A lookup after a set gives the password back, when it holds no
      newline (test/keychain.test.js:101-110). */
  lemma SetThenGet(store: Store, o: Opts)
    requires Validate(o, true).None? && '\n' !in o.password.value
    ensures MacGet(MacSet(store, o).1, o).0 == Success(o.password.value)
  {
    SetStores(store, o);
    var after := MacSet(store, o).1;
    SecurityFind(after, o.account.value, o.service.value);
    StripAppendedNewline(o.password.value);
    assert Captured([Out(o.password.value + "\n")], false) == o.password.value + "\n" by {
      assert [Out(o.password.value + "\n")][..0] == [];
    }
  }

  /** A delete succeeds exactly when the item is stored and removes it; a
      second delete of the same item then fails
      (test/keychain.test.js:166-182). */
  lemma DeleteTwice(store: Store, o: Opts)
    requires Validate(o, false).None?
    ensures MacDelete(store, o).0 == Pass <==> KeyOf(o) in store
    ensures MacDelete(store, o).1 == store - {KeyOf(o)}
    ensures MacDelete(MacDelete(store, o).1, o).0 == Fail(NotFound)
  {
    SecurityDelete(store, o.account.value, o.service.value);
    SecurityDelete(store - {KeyOf(o)}, o.account.value, o.service.value);
    if KeyOf(o) !in store {
      assert store - {KeyOf(o)} == store;
    }
  }

  /** A lookup of a key that was never stored fails
      (test/keychain.test.js:112-119). */
  lemma GetAbsent(store: Store, o: Opts)
    requires Validate(o, false).None? && KeyOf(o) !in store
    ensures MacGet(store, o).0 == Failure(NotFound)
  {
    SecurityFind(store, o.account.value, o.service.value);
  }

  /** The order of the test suite on one key: set twice, read the
      password back, delete, delete again (test/keychain.test.js:44-60,
      101-110, 166-182). */
  lemma TestSequence(store: Store, o: Opts)
    requires Validate(o, true).None? && o.password == Some("test")
    ensures var s1 := MacSet(store, o).1;
            var s2 := MacSet(s1, o).1;
            var s3 := MacDelete(s2, o).1;
            MacSet(store, o).0 == Pass && MacSet(s1, o).0 == Pass &&
            MacGet(s2, o).0 == Success("test") &&
            MacDelete(s2, o).0 == Pass && MacDelete(s3, o).0 == Fail(NotFound)
  {
    SetTwice(store, o);
    var s1 := MacSet(store, o).1;
    SetThenGet(s1, o);
    SetStores(s1, o);
    DeleteTwice(MacSet(s1, o).1, o);
  }

  // ---------------------------------------------------------------------
  // The facade object

  /** `KeychainAccess` on macOS: the executable it runs, the keychain the
      `security` tool works on, and the processes started so far. */
  class MacKeychain {
    const executablePath: string := SecurityPath
    var store: Store
    var spawned: seq<Command>

    constructor (initial: Store)
      ensures store == initial && spawned == []
    {
      store := initial;
      spawned := [];
    }

    /** `spawn(this.executablePath, argv)` run to its exit. */
    method Spawn(argv: seq<string>) returns (status: ExitStatus, chunks: seq<Chunk>)
      modifies this`store, this`spawned
      ensures Security(old(store), argv) == Run(status, chunks, store)
      ensures spawned == old(spawned) + [Command(executablePath, argv)]
    {
      var run := Security(store, argv);
      status, chunks := run.status, run.chunks;
      store := run.after;
      spawned := spawned + [Command(executablePath, argv)];
    }

    /** keychain.js:32-65 */
    method GetPassword(o: Opts) returns (r: Result<string, string>)
      modifies this`store, this`spawned
      ensures r == MacGet(old(store), o).0
      ensures store == old(store) && spawned == old(spawned) + MacGet(old(store), o).1
    {
      var err := Validate(o, false);
      if err.Some? {
        return Failure(err.value);
      }
      var status, chunks := Spawn(FindArgv(o.account.value, o.service.value));
      SecurityFind(old(store), o.account.value, o.service.value);
      var password := Collect(chunks, false);
      if status != Exited(0) {
        return Failure(NotFound);
      }
      password := StripFirstNewline(password);
      r := Success(password);
    }

    /** keychain.js:134-160 */
    method DeletePassword(o: Opts) returns (r: Outcome<string>)
      modifies this`store, this`spawned
      ensures r == MacDelete(old(store), o).0 && store == MacDelete(old(store), o).1
      ensures spawned == old(spawned) + MacDelete(old(store), o).2
    {
      var err := Validate(o, false);
      if err.Some? {
        return Fail(err.value);
      }
      var status, _ := Spawn(DeleteArgv(o.account.value, o.service.value));
      if status != Exited(0) {
        return Fail(NotFound);
      }
      r := Pass;
    }

    /** keychain.js:75-124; the recursive call is the retry after code 45. */
    method SetPassword(o: Opts) returns (r: Outcome<string>)
      modifies this`store, this`spawned
      ensures r == MacSet(old(store), o).0 && store == MacSet(old(store), o).1
      ensures spawned == old(spawned) + MacSet(old(store), o).2
      decreases if Validate(o, true).None? && KeyOf(o) in store then 1 else 0
    {
      var err := Validate(o, true);
      if err.Some? {
        return Fail(err.value);
      }
      var a, s, p := o.account.value, o.service.value, o.password.value;
      SecurityAdd(store, a, s, p);
      var status, _ := Spawn(AddArgv(a, s, p));
      if status != Exited(0) {
        var msg := NonSuccessPrefix + CodeText(status);
        if status == Exited(45) {
          ghost var afterAdd := store;
          ghost var logged := spawned;
          SecurityDelete(store, a, s);
          var d := DeletePassword(o);
          if d.Fail? {
            // console.log(err) is left out
            return d;
          }
          ghost var afterDelete := store;
          ghost var loggedDelete := spawned;
          r := SetPassword(o);
          assert spawned == loggedDelete + MacSet(afterDelete, o).2;
          assert loggedDelete == logged + MacDelete(afterAdd, o).2;
          assert old(spawned) + ([Command(SecurityPath, AddArgv(a, s, p))] + MacDelete(afterAdd, o).2 +
                                 MacSet(afterDelete, o).2) == spawned;
          return;
        } else {
          return Fail(msg);
        }
      }
      r := Pass;
    }
  }
}
