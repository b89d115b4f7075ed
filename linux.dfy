/** The Linux facade (platforms/linux.js): the same operations as on
    macOS, carried out by running the GNOME-keyring helper script under
    `/usr/bin/python`. What each run of the helper reports, its exit
    status and output, is an input of the operations; the lemmas at the
    end connect those inputs to the helper's own model. */
module Linux {
  import opened Text
  import opened Keychain
  import G = GKeyring

  const PythonPath := "/usr/bin/python"

  /** `__dirname + '/gkeyring.py'` */
  function HelperScript(dir: string): string { dir + "/gkeyring.py" }

  /** The key of an item in the helper's parameter syntax
      (platforms/linux.js:64, 106, 160). */
  function EncodeKey(account: string, service: string): string
  {
    "user=" + account + ",key=" + service
  }

  /** platforms/linux.js:64 */
  function HelperGetArgv(script: string, account: string, service: string): seq<string>
  {
    [script, "-p", EncodeKey(account, service), "-1"]
  }

  /** platforms/linux.js:106 */
  function HelperIdArgv(script: string, account: string, service: string): seq<string>
  {
    [script, "-p", EncodeKey(account, service), "--output=id"]
  }

  /** platforms/linux.js:160 */
  function HelperSetArgv(script: string, account: string, service: string, password: string): seq<string>
  {
    [script, "--set", "-n", service, "-p", EncodeKey(account, service), "-w", password]
  }

  /** platforms/linux.js:218: `'--id=' + id`, where a failed lookup left
      `id` null. */
  function HelperDeleteArgv(script: string, idText: string): seq<string>
  {
    [script, "--delete", "--id=" + idText]
  }

  /** How one run of the helper ended and what it wrote. */
  datatype Child = Child(status: ExitStatus, chunks: seq<Chunk>)

  // ---------------------------------------------------------------------
  // The operations, given the helper's runs

  /** `getPassword` (platforms/linux.js:48-88): standard output and
      standard error in arrival order, nothing stripped. */
  function LinuxGet(script: string, o: Opts, child: Child): (Result<string, string>, seq<Command>)
  {
    match Validate(o, false)
    case Some(e) => (Failure(e), [])
    case None =>
      var cmd := Command(PythonPath, HelperGetArgv(script, o.account.value, o.service.value));
      if child.status != Exited(0) then (Failure(NotFound), [cmd])
      else (Success(Captured(child.chunks, true)), [cmd])
  }

  /** `getID` (platforms/linux.js:90-128): standard output only. */
  function LinuxGetId(script: string, o: Opts, child: Child): (Result<string, string>, seq<Command>)
  {
    match Validate(o, false)
    case Some(e) => (Failure(e), [])
    case None =>
      var cmd := Command(PythonPath, HelperIdArgv(script, o.account.value, o.service.value));
      if child.status != Exited(0) then (Failure(NotFound), [cmd])
      else (Success(Captured(child.chunks, false)), [cmd])
  }

  /** The text `'' + id` gives for the id the lookup handed over. */
  function IdText(lookup: Result<string, string>): string
  {
    match lookup
    case Success(id) => id
    case Failure(_) => "null"
  }

  /** `deletePassword` (platforms/linux.js:197-229): the lookup's outcome
      only decides the id text; the delete runs in any case. */
  function LinuxDelete(script: string, o: Opts, idChild: Child, delChild: Child): (Outcome<string>, seq<Command>)
  {
    match Validate(o, false)
    case Some(e) => (Fail(e), [])
    case None =>
      var lookup := LinuxGetId(script, o, idChild);
      var cmd := Command(PythonPath, HelperDeleteArgv(script, IdText(lookup.0)));
      (DeleteReaction(delChild.status), lookup.1 + [cmd])
  }

  /** Enough helper runs for a set: one for the add and, each time it
      exits 45, two for the delete and then those of the retry. */
  predicate Scripted(children: seq<Child>)
    decreases |children|
  {
    |children| >= 1 &&
    (children[0].status == Exited(45) ==>
       |children| >= 3 && (children[2].status == Exited(0) ==> Scripted(children[3..])))
  }

  /** `setPassword` (platforms/linux.js:138-187), whose reaction to the
      exit status is that of the macOS facade. */
  function LinuxSet(script: string, o: Opts, children: seq<Child>): (Outcome<string>, seq<Command>)
    requires Validate(o, true).None? ==> Scripted(children)
    decreases |children|, 1
  {
    match Validate(o, true)
    case Some(e) => (Fail(e), [])
    case None =>
      var add := Command(PythonPath, HelperSetArgv(script, o.account.value, o.service.value, o.password.value));
      match AddReaction(children[0].status)
      case Added => (Pass, [add])
      case AddFailed(m) => (Fail(m), [add])
      case Duplicate =>
        var again := LinuxReplace(script, o, children);
        (again.0, [add] + again.1)
  }

  /** What follows code 45 (platforms/linux.js:167-177): the delete, and
      when it succeeded the set again with the remaining runs. */
  function LinuxReplace(script: string, o: Opts, children: seq<Child>): (Outcome<string>, seq<Command>)
    requires Validate(o, true).None? && Scripted(children) && children[0].status == Exited(45)
    decreases |children|, 0
  {
    var d := LinuxDelete(script, o, children[1], children[2]);
    if d.0.Fail? then d
    else
      var again := LinuxSet(script, o, children[3..]);
      (again.0, d.1 + again.1)
  }

  // ---------------------------------------------------------------------
  // Properties of the operations

  /** A rejected call starts no process; the checks and their messages
      are those of the macOS facade (platforms/linux.js:52-62, 94-104,
      142-158, 202-212). */
  lemma LinuxRejectedWithoutSpawn(script: string, o: Opts, child: Child, other: Child, children: seq<Child>)
    ensures Validate(o, false).Some? ==>
              LinuxGet(script, o, child) == (Failure(Validate(o, false).value), []) &&
              LinuxGetId(script, o, child) == (Failure(Validate(o, false).value), []) &&
              LinuxDelete(script, o, child, other) == (Fail(Validate(o, false).value), [])
    ensures Validate(o, true).Some? ==> LinuxSet(script, o, children) == (Fail(Validate(o, true).value), [])
  {
  }

  /** Each valid call runs `/usr/bin/python` on the helper script with its
      fixed argument vector (platforms/linux.js:21, 64, 106, 160, 218). */
  lemma LinuxArgv(script: string, o: Opts, child: Child, other: Child, children: seq<Child>)
    requires Validate(o, false).None?
    ensures var key := "user=" + o.account.value + ",key=" + o.service.value;
            LinuxGet(script, o, child).1 == [Command("/usr/bin/python", [script, "-p", key, "-1"])] &&
            LinuxGetId(script, o, child).1 == [Command("/usr/bin/python", [script, "-p", key, "--output=id"])] &&
            LinuxDelete(script, o, child, other).1[0] == LinuxGetId(script, o, child).1[0] &&
            LinuxDelete(script, o, child, other).1[1].argv[..2] == [script, "--delete"]
    ensures Validate(o, true).None? && Scripted(children) ==>
            LinuxSet(script, o, children).1[0] ==
            Command("/usr/bin/python", [script, "--set", "-n", o.service.value, "-p",
                                        "user=" + o.account.value + ",key=" + o.service.value,
                                        "-w", o.password.value])
  {
  }

  /** On exit 0 the password is everything the helper wrote, on either
      stream, verbatim: a trailing newline stays. Any other status is
      "not found" (platforms/linux.js:68-87). */
  lemma LinuxGetVerbatim(script: string, o: Opts, chunks: seq<Chunk>, out: string, err: string, status: ExitStatus)
    requires Validate(o, false).None?
    ensures LinuxGet(script, o, Child(Exited(0), chunks)).0 == Success(Captured(chunks, true))
    ensures status != Exited(0) ==> LinuxGet(script, o, Child(status, chunks)).0 == Failure(NotFound)
    ensures LinuxGet(script, o, Child(Exited(0), [Out(out), Err(err)])).0 == Success(out + err)
    ensures LinuxGet(script, o, Child(Exited(0), [Out(out + "\n")])).0 == Success(out + "\n")
  {
    var c := [Out(out), Err(err)];
    assert c[..1] == [Out(out)];
    assert [Out(out)][..0] == [];
    EmptyPrefix(out);
    assert Captured([Out(out)], true) == "" + out;
    assert Captured(c, true) == Captured([Out(out)], true) + err;
    assert [Out(out + "\n")][..0] == [];
    EmptyPrefix(out + "\n");
  }

  /** The lookup of the id ignores standard error
      (platforms/linux.js:109-117). */
  lemma GetIdIgnoresStderr(script: string, o: Opts, chunks: seq<Chunk>, err: string)
    requires Validate(o, false).None?
    ensures LinuxGetId(script, o, Child(Exited(0), chunks + [Err(err)])) ==
            LinuxGetId(script, o, Child(Exited(0), chunks))
  {
    StderrIgnored(chunks, err);
  }

  /** A valid delete always runs the lookup and then the delete, with
      `--id=null` when the lookup failed; the lookup's error is not
      reported, and only the delete's status decides the outcome
      (platforms/linux.js:216-227). */
  lemma DeleteAlwaysSpawns(script: string, o: Opts, idChild: Child, delChild: Child)
    requires Validate(o, false).None?
    ensures var a, s := o.account.value, o.service.value;
            var idText := if idChild.status == Exited(0) then Captured(idChild.chunks, false) else "null";
            LinuxDelete(script, o, idChild, delChild).1 ==
            [Command(PythonPath, HelperIdArgv(script, a, s)),
             Command(PythonPath, HelperDeleteArgv(script, idText))]
    ensures LinuxDelete(script, o, idChild, delChild).0 == Pass <==> delChild.status == Exited(0)
    ensures LinuxDelete(script, o, idChild, delChild).0.Fail? ==>
              LinuxDelete(script, o, idChild, delChild).0.error == NotFound
  {
  }

  /** The helper never exits 45 (it exits 0, 1, 2 or 5, or is killed by a
      signal), so a set runs exactly one process and its status alone
      decides the outcome (platforms/linux.js:167; platforms/gkeyring.py:198,
      207, 318). */
  lemma HelperNeverRetries(script: string, o: Opts, children: seq<Child>)
    requires Validate(o, true).None? && |children| >= 1
    requires children[0].status.Signalled? || children[0].status.code in G.HelperExitCodes
    ensures Scripted(children)
    ensures |LinuxSet(script, o, children).1| == 1
    ensures LinuxSet(script, o, children).0 == Pass <==> children[0].status == Exited(0)
    ensures LinuxSet(script, o, children).0.Fail? ==>
              LinuxSet(script, o, children).0.error == NonSuccessPrefix + CodeText(children[0].status)
  {
  }

  /** When the helper does exit 45, the delete runs and the set is
      retried only after the delete succeeded; the delete's error is
      reported otherwise. */
  lemma DuplicateRetries(script: string, o: Opts, children: seq<Child>)
    requires Validate(o, true).None? && Scripted(children)
    requires children[0].status == Exited(45)
    ensures var d := LinuxDelete(script, o, children[1], children[2]);
            var a, s, p := o.account.value, o.service.value, o.password.value;
            var add := Command(PythonPath, HelperSetArgv(script, a, s, p));
            LinuxSet(script, o, children) ==
            if children[2].status != Exited(0) then (Fail(NotFound), [add] + d.1)
            else (LinuxSet(script, o, children[3..]).0, [add] + (d.1 + LinuxSet(script, o, children[3..]).1))
  {
  }

  // ---------------------------------------------------------------------
  // The key as the helper reads it

  /** A key without commas reads back as `{user: account, key: service}`. */
  lemma KeyReadsBack(a: string, s: string)
    requires ',' !in a && ',' !in s
    ensures G.ParseParams(EncodeKey(a, s), false) == Some([("user", G.Str(a)), ("key", G.Str(s))])
  {
    var ps: seq<G.Param> := [("user", G.Str(a)), ("key", G.Str(s))];
    var tokens := seq(|ps|, i requires 0 <= i < |ps| => G.Token(ps[i]));
    assert G.Token(ps[0]) == "user=" + a && G.Token(ps[1]) == "key=" + s;
    assert tokens == ["user=" + a, "key=" + s];
    assert tokens[..1] == ["user=" + a];
    assert Join(tokens, ',') == "user=" + a + [','] + ("key=" + s);
    assert EncodeKey(a, s) == "user=" + a + [','] + ("key=" + s);
    G.ParamsRoundTrip(ps, false);
  }

  /** Every value read from the key is free of commas. */
  lemma KeyValuesCommaFree(a: string, s: string)
    requires G.ParseParams(EncodeKey(a, s), false).Some?
    ensures var ps := G.ParseParams(EncodeKey(a, s), false).value;
            forall i :: 0 <= i < |ps| ==> ',' !in G.ValueText(ps[i].1)
  {
    SplitPieces(EncodeKey(a, s), ',');
    G.ParsedValuesCommaFree(Split(EncodeKey(a, s), ','), false);
  }

  /** The key reads back, through the helper's `-p` parser, as exactly
      `{user: account, key: service}` if and only if neither part holds
      a `,`; an `=` inside either does no harm (platforms/linux.js:64;
      platforms/gkeyring.py:144-150). */
  lemma KeyDecodes(a: string, s: string)
    ensures (G.ParseParams(EncodeKey(a, s), false).Some? &&
             G.ToMap(G.ParseParams(EncodeKey(a, s), false).value) == map["user" := G.Str(a), "key" := G.Str(s)])
            <==> ',' !in a && ',' !in s
  {
    var parsed := G.ParseParams(EncodeKey(a, s), false);
    if ',' !in a && ',' !in s {
      KeyReadsBack(a, s);
      var ps: seq<G.Param> := [("user", G.Str(a)), ("key", G.Str(s))];
      assert ps[..1][..0] == [];
      assert G.ToMap(ps) == G.ToMap(ps[..1])["key" := G.Str(s)];
    }
    if parsed.Some? && G.ToMap(parsed.value) == map["user" := G.Str(a), "key" := G.Str(s)] {
      KeyValuesCommaFree(a, s);
      var m := G.ToMap(parsed.value);
      G.ToMapEntry(parsed.value, "user");
      var i :| 0 <= i < |parsed.value| && parsed.value[i] == ("user", m["user"]);
      assert G.ValueText(parsed.value[i].1) == a;
      G.ToMapEntry(parsed.value, "key");
      var j :| 0 <= j < |parsed.value| && parsed.value[j] == ("key", m["key"]);
      assert G.ValueText(parsed.value[j].1) == s;
    }
  }

  // ---------------------------------------------------------------------
  // The helper's side of each call

  /** The options the helper receives from the argument vector of a
      lookup: `-p <key> -1`. */
  function GetOptions(a: string, s: string): G.Options
  {
    G.DefaultOptions.(params := EncodeKey(a, s), output1 := true)
  }

  /** The options the helper receives from the argument vector of the id
      lookup: `-p <key> --output=id`. */
  function IdOptions(a: string, s: string): G.Options
  {
    G.DefaultOptions.(params := EncodeKey(a, s), output := "id")
  }

  /** The options the helper receives from `--delete --id=<text>`; None
      when `<text>` is not an integer, which the option parser rejects
      (the helper then exits 2). */
  function DeleteOptions(idText: string): Option<G.Options>
  {
    match ParseInt(idText)
    case None => None
    case Some(n) => Some(G.DefaultOptions.(delete := true, id := Some(n)))
  }

  /** Options with the encoded key and no `-i` are accepted, with the
      parameters `{user, key}`. */
  lemma KeyConfig(o: G.Options, a: string, s: string, prompted: string)
    requires ',' !in a && ',' !in s
    requires o.params == EncodeKey(a, s) && o.paramsInt == "" && !o.create
    ensures G.ParseConfig(o, prompted).Success?
    ensures G.ParseConfig(o, prompted).value.params == map["user" := G.Str(a), "key" := G.Str(s)]
  {
    KeyDecodes(a, s);
    assert Split("", ',') == [""];
    assert G.ParseTokens([""], true) == Some([]);
    G.ConfigOfAccepted(o, prompted);
    assert G.ToMap([]) == map[];
  }

  /** With `-1` and at least one match, the helper exits 0 and writes the
      secrets one per line, without a final newline. */
  lemma SecretLookupOutput(a: string, s: string, prompted: string, k: G.Keyring)
    requires ',' !in a && ',' !in s
    requires |k.found| >= 1
    ensures G.HelperRun(GetOptions(a, s), prompted, k) ==
            (0, Join(G.Secrets(k.found), '\n'))
  {
    var go := GetOptions(a, s);
    KeyConfig(go, a, s, prompted);
    G.OutputColumns(go, prompted);
    assert G.HelperRun(go, prompted, k) == (0, G.Render(k.found, ["secret"], true));
    G.SecretOnlyOutput(k.found);
  }

  /** The helper looks up exactly `{user, key}` and, with `-1`, writes the
      secrets one per line without a final newline on standard output.
      The facade hands the caller that text followed by whatever came on
      standard error; with nothing on standard error, the secrets joined
      by newlines, and for one match exactly its secret, however the
      output arrives in chunks. */
  lemma HelperSecretReachesCaller(script: string, o: Opts, prompted: string, k: G.Keyring, chunks: seq<Chunk>)
    requires Validate(o, false).None?
    requires ',' !in o.account.value && ',' !in o.service.value
    requires |k.found| >= 1
    requires Captured(chunks, false) == G.HelperRun(GetOptions(o.account.value, o.service.value), prompted, k).1
    ensures var c := G.ParseConfig(GetOptions(o.account.value, o.service.value), prompted);
            c.Success? && c.value.params == map["user" := G.Str(o.account.value), "key" := G.Str(o.service.value)] &&
            c.value.output == ["secret"] && c.value.noNewline
    ensures G.HelperRun(GetOptions(o.account.value, o.service.value), prompted, k).0 == 0
    ensures LinuxGet(script, o, Child(Exited(0), chunks)).0 == Success(Captured(chunks, true))
    ensures Captured(chunks, true) == Captured(chunks, false) ==>
              LinuxGet(script, o, Child(Exited(0), chunks)).0 ==
              Success(Join(G.Secrets(k.found), '\n'))
    ensures Captured(chunks, true) == Captured(chunks, false) && |k.found| == 1 ==>
              LinuxGet(script, o, Child(Exited(0), chunks)).0 == Success(k.found[0].secret)
  {
    var a, sv := o.account.value, o.service.value;
    KeyConfig(GetOptions(a, sv), a, sv, prompted);
    G.OutputColumns(GetOptions(a, sv), prompted);
    SecretLookupOutput(a, sv, prompted, k);
    LinuxGetVerbatim(script, o, chunks, "", "", Exited(0));
    if |k.found| == 1 {
      G.SecretOnlyOutput(k.found);
    }
  }

  /** With `--output=id` and one match, the helper exits 0 and writes the
      match's id and a newline. */
  lemma IdLookupOutput(a: string, s: string, prompted: string, k: G.Keyring)
    requires ',' !in a && ',' !in s
    requires |k.found| == 1 && k.found[0].id != 0
    ensures G.HelperRun(IdOptions(a, s), prompted, k) == (0, IntToString(k.found[0].id) + "\n")
  {
    var io := IdOptions(a, s);
    KeyConfig(io, a, s, prompted);
    G.OutputColumns(io, prompted);
    SplitWithout("id", ',');
    G.IdOutputReadsBack(k.found[0]);
  }

  /** `--delete --id=<n>` followed by a newline is accepted, and the exit
      status says whether the keyring deleted the item. */
  lemma DeleteReceivesId(n: int, prompted: string, kd: G.Keyring)
    requires n != 0
    ensures DeleteOptions(IntToString(n) + "\n") == Some(G.DefaultOptions.(delete := true, id := Some(n)))
    ensures G.HelperRun(G.DefaultOptions.(delete := true, id := Some(n)), prompted, kd).0 ==
            (if kd.deleted then 0 else 5)
  {
    ParseIntOfIntToString(n, "\n");
    var d := G.DefaultOptions.(delete := true, id := Some(n));
    assert Split("", ',') == [""];
    assert G.ParseTokens([""], false) == Some([]);
    assert G.ParseTokens([""], true) == Some([]);
    G.ConfigOfAccepted(d, prompted);
  }

  /** After a failed lookup the helper is given `--id=null`, which it
      refuses. */
  lemma NullIdRefused()
    ensures DeleteOptions(IdText(Failure(NotFound))) == None
  {
    assert TrimStart("null") == "null";
    assert TrimEnd("null") == "null";
  }

  /** The id lookup finds one item and writes its id; the delete that
      follows receives that id, and the helper's exit status then says
      whether the keyring deleted it (platforms/linux.js:106-127, 216-218;
      platforms/gkeyring.py:194-207). */
  lemma IdFeedsDelete(a: string, s: string, prompted: string, k: G.Keyring, kd: G.Keyring)
    requires ',' !in a && ',' !in s
    requires |k.found| == 1 && k.found[0].id != 0
    ensures var d := DeleteOptions(G.HelperRun(IdOptions(a, s), prompted, k).1);
            d == Some(G.DefaultOptions.(delete := true, id := Some(k.found[0].id))) &&
            G.HelperRun(d.value, prompted, kd).0 == (if kd.deleted then 0 else 5)
  {
    IdLookupOutput(a, s, prompted, k);
    DeleteReceivesId(k.found[0].id, prompted, kd);
  }

  /** With two or more matches (repeated sets create duplicate items),
      the id lookup still exits 0 but writes one id per line; that text is
      not an integer, so the delete's option parser refuses it and the
      helper exits 2, which `deletePassword` reports as not found. */
  lemma SeveralIdsRefused(script: string, o: Opts, prompted: string, k: G.Keyring, chunks: seq<Chunk>, delChild: Child)
    requires Validate(o, false).None?
    requires ',' !in o.account.value && ',' !in o.service.value
    requires |k.found| >= 2 && k.found[0].id != 0 && k.found[1].id != 0
    requires Captured(chunks, false) == G.HelperRun(IdOptions(o.account.value, o.service.value), prompted, k).1
    ensures G.HelperRun(IdOptions(o.account.value, o.service.value), prompted, k).0 == 0
    ensures DeleteOptions(IdText(LinuxGetId(script, o, Child(Exited(0), chunks)).0)) == None
    ensures delChild.status == Exited(2) ==>
              LinuxDelete(script, o, Child(Exited(0), chunks), delChild).0 == Fail(NotFound)
  {
    var a, sv := o.account.value, o.service.value;
    var io := IdOptions(a, sv);
    KeyConfig(io, a, sv, prompted);
    G.OutputColumns(io, prompted);
    SplitWithout("id", ',');
    G.SeveralIdsUnreadable(k.found);
  }

  // ---------------------------------------------------------------------
  // The facade object

  /** `KeychainAccess` on Linux: the interpreter it runs, the helper
      script next to the module, and the processes started so far. */
  class LinuxKeychain {
    const executablePath: string
    const script: string
    var spawned: seq<Command>

    constructor (dir: string)
      ensures executablePath == PythonPath && script == HelperScript(dir) && spawned == []
    {
      executablePath := PythonPath;
      script := HelperScript(dir);
      spawned := [];
    }

    /** `spawn(this.executablePath, argv)`; the run's result is `child`. */
    method Spawn(argv: seq<string>, child: Child) returns (status: ExitStatus, chunks: seq<Chunk>)
      modifies this`spawned
      ensures status == child.status && chunks == child.chunks
      ensures spawned == old(spawned) + [Command(executablePath, argv)]
    {
      spawned := spawned + [Command(executablePath, argv)];
      status, chunks := child.status, child.chunks;
    }

    /** platforms/linux.js:48-88 */
    method GetPassword(o: Opts, child: Child) returns (r: Result<string, string>)
      requires executablePath == PythonPath
      modifies this`spawned
      ensures r == LinuxGet(script, o, child).0
      ensures spawned == old(spawned) + LinuxGet(script, o, child).1
    {
      var err := Validate(o, false);
      if err.Some? {
        return Failure(err.value);
      }
      var status, chunks := Spawn(HelperGetArgv(script, o.account.value, o.service.value), child);
      var password := Collect(chunks, true);
      if status != Exited(0) {
        return Failure(NotFound);
      }
      r := Success(password);
    }

    /** platforms/linux.js:90-128 */
    method GetID(o: Opts, child: Child) returns (r: Result<string, string>)
      requires executablePath == PythonPath
      modifies this`spawned
      ensures r == LinuxGetId(script, o, child).0
      ensures spawned == old(spawned) + LinuxGetId(script, o, child).1
    {
      var err := Validate(o, false);
      if err.Some? {
        return Failure(err.value);
      }
      var status, chunks := Spawn(HelperIdArgv(script, o.account.value, o.service.value), child);
      var id := Collect(chunks, false);
      if status != Exited(0) {
        return Failure(NotFound);
      }
      r := Success(id);
    }

    /** platforms/linux.js:197-229 */
    method DeletePassword(o: Opts, idChild: Child, delChild: Child) returns (r: Outcome<string>)
      requires executablePath == PythonPath
      modifies this`spawned
      ensures r == LinuxDelete(script, o, idChild, delChild).0
      ensures spawned == old(spawned) + LinuxDelete(script, o, idChild, delChild).1
    {
      var err := Validate(o, false);
      if err.Some? {
        return Fail(err.value);
      }
      var lookup := GetID(o, idChild);
      var status, _ := Spawn(HelperDeleteArgv(script, IdText(lookup)), delChild);
      if status != Exited(0) {
        return Fail(NotFound);
      }
      r := Pass;
    }

    /** platforms/linux.js:138-187; code 45 hands over to
        `ReplaceExisting`. */
    method SetPassword(o: Opts, children: seq<Child>) returns (r: Outcome<string>)
      requires executablePath == PythonPath
      requires Validate(o, true).None? ==> Scripted(children)
      modifies this`spawned
      ensures r == LinuxSet(script, o, children).0
      ensures spawned == old(spawned) + LinuxSet(script, o, children).1
      decreases |children|, 1
    {
      var err := Validate(o, true);
      if err.Some? {
        return Fail(err.value);
      }
      var a, s, p := o.account.value, o.service.value, o.password.value;
      var status, _ := Spawn(HelperSetArgv(script, a, s, p), children[0]);
      if status != Exited(0) {
        var msg := NonSuccessPrefix + CodeText(status);
        if status == Exited(45) {
          ghost var logged := spawned;
          r := ReplaceExisting(o, children);
          assert spawned == old(spawned) + ([Command(PythonPath, HelperSetArgv(script, a, s, p))] +
                                            LinuxReplace(script, o, children).1);
          return;
        } else {
          return Fail(msg);
        }
      }
      r := Pass;
    }

    /** The callback given to `deletePassword` after code 45
        (platforms/linux.js:168-177): on error report it, otherwise set
        again. */
    method ReplaceExisting(o: Opts, children: seq<Child>) returns (r: Outcome<string>)
      requires executablePath == PythonPath
      requires Validate(o, true).None? && Scripted(children) && children[0].status == Exited(45)
      modifies this`spawned
      ensures r == LinuxReplace(script, o, children).0
      ensures spawned == old(spawned) + LinuxReplace(script, o, children).1
      decreases |children|, 0
    {
      var d := DeletePassword(o, children[1], children[2]);
      if d.Fail? {
        // console.log(err) is left out
        return d;
      }
      r := SetPassword(o, children[3..]);
    }
  }
}
