/** The GNOME keyring helper script: its `-p`/`-i` parameter parsing,
    option normalisation, query output formatting and exit status. The
    keyring library calls are replaced by their answers (`Keyring`). */
module GKeyring {
  import opened Text

  // ---------------------------------------------------------------------
  // Item properties

  /** A property value: `-p` gives strings, `-i` integers. */
  datatype Value = Str(text: string) | Int(n: int)

  /** One `NAME=VALUE` entry, in the order it was written. */
  type Param = (string, Value)

  /** Python's `str()` of a value. */
  function ValueText(v: Value): string
  {
    match v
    case Str(t) => t
    case Int(n) => IntToString(n)
  }

  /** Python's truthiness of a value. */
  predicate Truthy(v: Value)
  {
    match v
    case Str(t) => t != ""
    case Int(n) => n != 0
  }

  // ---------------------------------------------------------------------
  // Parameter strings `NAME=VALUE,NAME=VALUE`

  /** Python's `tok.split(c, 1)`: the text before the first `c` and the
      text after it, or None when `tok` holds no `c` (unpacking the single
      piece then raises ValueError). */
  function SplitAtFirst(tok: string, c: char): (r: Option<(string, string)>)
    ensures r.None? <==> c !in tok
    ensures r.Some? ==> c !in r.value.0 && tok == r.value.0 + [c] + r.value.1
  {
    if |tok| == 0 then None
    else if tok[0] == c then Some(([], tok[1..]))
    else
      match SplitAtFirst(tok[1..], c)
      case None => None
      case Some((n, v)) =>
        assert tok == [tok[0]] + tok[1..];
        Some(([tok[0]] + n, v))
  }

  /** The first `c` is found whatever follows it. */
  lemma {:induction false} SplitAtFirstOf(name: string, c: char, rest: string)
    requires c !in name
    ensures SplitAtFirst(name + [c] + rest, c) == Some((name, rest))
  {
    var tok := name + [c] + rest;
    if |name| > 0 {
      assert tok[0] == name[0] && tok[1..] == name[1..] + [c] + rest;
      SplitAtFirstOf(name[1..], c, rest);
      assert [name[0]] + name[1..] == name;
    } else {
      assert tok == [c] + rest;
    }
  }

  /** One non-empty token: split at its first `=`, and for `-i` the value
      converted by `int()` (gkeyring.py:149-150, 162-164). */
  function ParseToken(tok: string, asInt: bool): Option<Param>
  {
    match SplitAtFirst(tok, '=')
    case None => None
    case Some((name, val)) =>
      if !asInt then Some((name, Str(val)))
      else
        match ParseInt(val)
        case None => None
        case Some(n) => Some((name, Int(n)))
  }

  /** `ps` followed by the parameters of `rest`, or None if `rest` failed. */
  function Prepend(ps: seq<Param>, rest: Option<seq<Param>>): Option<seq<Param>>
  {
    match rest
    case None => None
    case Some(qs) => Some(ps + qs)
  }

  /** The parameters of a token list: empty tokens are skipped, any other
      token that does not parse fails the whole list. */
  function ParseTokens(tokens: seq<string>, asInt: bool): Option<seq<Param>>
  {
    if |tokens| == 0 then Some([])
    else
      var rest := ParseTokens(tokens[1..], asInt);
      if tokens[0] == "" then rest
      else
        match ParseToken(tokens[0], asInt)
        case None => None
        case Some(p) => Prepend([p], rest)
  }

  /** One step of the token loop, seen from position `i`. */
  lemma ParseTokensAt(tokens: seq<string>, i: nat, asInt: bool)
    requires i < |tokens|
    ensures ParseTokens(tokens[i..], asInt) ==
            if tokens[i] == "" then ParseTokens(tokens[i + 1..], asInt)
            else match ParseToken(tokens[i], asInt)
                 case None => None
                 case Some(p) => Prepend([p], ParseTokens(tokens[i + 1..], asInt))
  {
    assert tokens[i..][0] == tokens[i] && tokens[i..][1..] == tokens[i + 1..];
  }

  lemma PrependNothing(rest: Option<seq<Param>>)
    ensures Prepend([], rest) == rest
  {
    match rest {
      case None =>
      case Some(qs) => assert [] + qs == qs;
    }
  }

  /** Prepending in two steps is prepending the concatenation. */
  lemma PrependTwice(x: seq<Param>, y: seq<Param>, rest: Option<seq<Param>>)
    ensures Prepend(x, Prepend(y, rest)) == Prepend(x + y, rest)
  {
    match rest {
      case None =>
      case Some(qs) => assert x + (y + qs) == (x + y) + qs;
    }
  }

  /** Inserting one more parameter. */
  lemma ToMapSnoc(done: seq<Param>, p: Param)
    ensures ToMap(done + [p]) == ToMap(done)[p.0 := p.1]
  {
    assert (done + [p])[..|done|] == done;
  }

  /** The value of `-p` (asInt false) or `-i` (asInt true), split on `,`. */
  function ParseParams(spec: string, asInt: bool): Option<seq<Param>>
  {
    ParseTokens(Split(spec, ','), asInt)
  }

  /** The dictionary built by inserting the parameters in order. */
  function ToMap(ps: seq<Param>): map<string, Value>
  {
    if |ps| == 0 then map[]
    else ToMap(ps[..|ps| - 1])[ps[|ps| - 1].0 := ps[|ps| - 1].1]
  }

  /** Parsing concatenated token lists parses each list in turn. */
  lemma {:induction false} ParseTokensAppend(a: seq<string>, b: seq<string>, asInt: bool)
    ensures ParseTokens(a + b, asInt) ==
            match ParseTokens(a, asInt)
            case None => None
            case Some(ps) => Prepend(ps, ParseTokens(b, asInt))
  {
    var ab := a + b;
    if |a| > 0 {
      assert ab[0] == a[0] && ab[1..] == a[1..] + b;
      ParseTokensAppend(a[1..], b, asInt);
      var head := ParseToken(a[0], asInt);
      var tail := ParseTokens(a[1..], asInt);
      if a[0] != "" && head.Some? && tail.Some? {
        PrependTwice([head.value], tail.value, ParseTokens(b, asInt));
      }
    } else {
      assert ab == b;
      PrependNothing(ParseTokens(b, asInt));
    }
  }

  /** A parameter list is accepted exactly when each non-empty token is. */
  lemma {:induction false} ParseTokensAccepts(tokens: seq<string>, asInt: bool)
    ensures ParseTokens(tokens, asInt).Some? <==>
            forall i :: 0 <= i < |tokens| && tokens[i] != "" ==> ParseToken(tokens[i], asInt).Some?
  {
    if |tokens| > 0 {
      ParseTokensAccepts(tokens[1..], asInt);
      assert forall i :: 1 <= i < |tokens| ==> tokens[i] == tokens[1..][i - 1];
    }
  }

  /** A `-p` token is accepted exactly when it holds an `=`; a `-i` token
      also needs `int()` to accept the text after its first `=`. */
  lemma TokenAccepted(tok: string)
    ensures ParseToken(tok, false).Some? <==> '=' in tok
    ensures ParseToken(tok, true).Some? <==>
            '=' in tok && ParseInt(SplitAtFirst(tok, '=').value.1).Some?
  {
  }

  /** A trailing `,` adds an empty token, which is skipped. */
  lemma TrailingCommaSkipped(x: string, asInt: bool)
    ensures ParseParams(x + ",", asInt) == ParseParams(x, asInt)
  {
    SplitAround(x, ',', "");
    assert x + "," == x + [','] + "";
    assert Split("", ',') == [""];
    ParseTokensAppend(Split(x, ','), [""], asInt);
    match ParseTokens(Split(x, ','), asInt) {
      case None =>
      case Some(ps) => assert ps + [] == ps;
    }
  }

  lemma SplitDoubledComma(x: string, y: string)
    ensures Split(x + ",," + y, ',') == Split(x, ',') + ([""] + Split(y, ','))
  {
    assert x + ",," + y == x + [','] + ("," + y);
    assert "," + y == "" + [','] + y;
    assert Split("", ',') == [""];
    SplitAround(x, ',', "," + y);
    SplitAround("", ',', y);
  }

  lemma SplitComma(x: string, y: string)
    ensures Split(x + "," + y, ',') == Split(x, ',') + Split(y, ',')
  {
    assert x + "," + y == x + [','] + y;
    SplitAround(x, ',', y);
  }

  /** A leading `,` adds an empty token, which is skipped. */
  lemma LeadingCommaSkipped(y: string, asInt: bool)
    ensures ParseParams("," + y, asInt) == ParseParams(y, asInt)
  {
    assert "," + y == "" + [','] + y;
    assert Split("", ',') == [""];
    SplitAround("", ',', y);
    assert ([""] + Split(y, ','))[1..] == Split(y, ',');
  }

  /** A doubled `,` adds an empty token, which is skipped. */
  lemma DoubledCommaSkipped(x: string, y: string, asInt: bool)
    ensures ParseParams(x + ",," + y, asInt) == ParseParams(x + "," + y, asInt)
  {
    var sx, sy := Split(x, ','), Split(y, ',');
    SplitDoubledComma(x, y);
    SplitComma(x, y);
    assert ParseTokens([""] + sy, asInt) == ParseTokens(sy, asInt) by {
      assert ([""] + sy)[1..] == sy;
    }
    ParseTokensAppend(sx, [""] + sy, asInt);
    ParseTokensAppend(sx, sy, asInt);
  }

  /** Empty tokens add nothing: an empty string, a trailing `,` and a
      doubled `,` (gkeyring.py:146-148, 159-161). */
  lemma EmptyTokensSkipped(x: string, y: string, asInt: bool)
    ensures ParseParams("", asInt) == Some([])
    ensures ParseParams("," + y, asInt) == ParseParams(y, asInt)
    ensures ParseParams(x + ",", asInt) == ParseParams(x, asInt)
    ensures ParseParams(x + ",," + y, asInt) == ParseParams(x + "," + y, asInt)
  {
    assert Split("", ',') == [""];
    assert ParseTokens([""], asInt) == Some([]);
    LeadingCommaSkipped(y, asInt);
    TrailingCommaSkipped(x, asInt);
    DoubledCommaSkipped(x, y, asInt);
  }

  /** A value may itself hold `=`: only the first one separates. */
  lemma ValueMayHoldEquals(name: string, val: string)
    requires '=' !in name
    ensures ParseToken(name + "=" + val, false) == Some((name, Str(val)))
  {
    SplitAtFirstOf(name, '=', val);
  }

  // ---------------------------------------------------------------------
  // Writing parameter strings: the inverse of parsing

  /** `NAME=VALUE` for one parameter. */
  function Token(p: Param): string
  {
    p.0 + "=" + ValueText(p.1)
  }

  /** The parameters as one `-p`/`-i` option value. */
  function EncodeParams(ps: seq<Param>): string
  {
    Join(seq(|ps|, i requires 0 <= i < |ps| => Token(ps[i])), ',')
  }

  /** What can be written and read back: the name holds no `,` or `=`,
      and the value is a string without `,` (for `-p`) or an integer
      (for `-i`). */
  predicate Writable(p: Param, asInt: bool)
  {
    ',' !in p.0 && '=' !in p.0 &&
    (if asInt then p.1.Int? else p.1.Str? && ',' !in p.1.text)
  }

  /** A written parameter reads back as itself. */
  lemma ParseTokenOfToken(p: Param, asInt: bool)
    requires Writable(p, asInt)
    ensures Token(p) != "" && ParseToken(Token(p), asInt) == Some(p)
  {
    SplitAtFirstOf(p.0, '=', ValueText(p.1));
    assert Token(p) == p.0 + ['='] + ValueText(p.1);
    if asInt {
      ParseIntOfIntToString(p.1.n, "");
      assert IntToString(p.1.n) + "" == IntToString(p.1.n);
    }
  }

  lemma {:induction false} ParseWrittenTokens(ps: seq<Param>, asInt: bool)
    requires forall i :: 0 <= i < |ps| ==> Writable(ps[i], asInt)
    ensures ParseTokens(seq(|ps|, i requires 0 <= i < |ps| => Token(ps[i])), asInt) == Some(ps)
  {
    var tokens := seq(|ps|, i requires 0 <= i < |ps| => Token(ps[i]));
    if |ps| > 0 {
      var p := ps[0];
      assert Writable(p, asInt);
      ParseTokenOfToken(p, asInt);
      assert tokens[0] == Token(p);
      assert tokens[1..] == seq(|ps[1..]|, i requires 0 <= i < |ps[1..]| => Token(ps[1..][i]));
      ParseWrittenTokens(ps[1..], asInt);
      assert ps == [p] + ps[1..];
    }
  }

  /** Reading back a written parameter string gives the parameters, in
      order. */
  lemma ParamsRoundTrip(ps: seq<Param>, asInt: bool)
    requires forall i :: 0 <= i < |ps| ==> Writable(ps[i], asInt)
    ensures ParseParams(EncodeParams(ps), asInt) == Some(ps)
  {
    var tokens := seq(|ps|, i requires 0 <= i < |ps| => Token(ps[i]));
    ParseWrittenTokens(ps, asInt);
    if |ps| == 0 {
      assert tokens == [];
      assert EncodeParams(ps) == "";
      assert Split("", ',') == [""];
      assert ParseTokens([""], asInt) == ParseTokens([], asInt) == Some([]);
    } else {
      forall i | 0 <= i < |tokens| ensures ',' !in tokens[i] {
        assert tokens[i] == ps[i].0 + "=" + ValueText(ps[i].1);
        if asInt {
          IntToStringChars(ps[i].1.n);
        }
      }
      SplitJoin(tokens, ',');
    }
  }

  /** The value read from a token without `,` holds no `,`. */
  lemma TokenValueCommaFree(tok: string, asInt: bool)
    requires ',' !in tok && ParseToken(tok, asInt).Some?
    ensures ',' !in ValueText(ParseToken(tok, asInt).value.1)
  {
    var s := SplitAtFirst(tok, '=').value;
    if asInt {
      IntToStringChars(ParseToken(tok, asInt).value.1.n);
    } else {
      assert tok == s.0 + "=" + s.1;
      forall k | 0 <= k < |s.1| ensures s.1[k] != ',' {
        assert s.1[k] == tok[|s.0| + 1 + k];
      }
    }
  }

  /** Values read from a parameter string never hold `,`. */
  lemma {:induction false} ParsedValuesCommaFree(tokens: seq<string>, asInt: bool)
    requires forall i :: 0 <= i < |tokens| ==> ',' !in tokens[i]
    requires ParseTokens(tokens, asInt).Some?
    ensures forall i :: 0 <= i < |ParseTokens(tokens, asInt).value| ==>
              ',' !in ValueText(ParseTokens(tokens, asInt).value[i].1)
  {
    if |tokens| > 0 {
      var rest := ParseTokens(tokens[1..], asInt);
      assert rest.Some?;
      ParsedValuesCommaFree(tokens[1..], asInt);
      if tokens[0] != "" {
        TokenValueCommaFree(tokens[0], asInt);
        var p := ParseToken(tokens[0], asInt).value;
        assert ParseTokens(tokens, asInt).value == [p] + rest.value;
      }
    }
  }

  // ---------------------------------------------------------------------
  // The parameter dictionary

  /** The keys are the names that were written. */
  lemma {:induction false} ToMapKeys(ps: seq<Param>)
    ensures ToMap(ps).Keys == set i | 0 <= i < |ps| :: ps[i].0
  {
    if |ps| > 0 {
      var init := ps[..|ps| - 1];
      ToMapKeys(init);
      assert forall i :: 0 <= i < |init| ==> init[i] == ps[i];
    }
  }

  /** A repeated name keeps the value written last. */
  lemma {:induction false} ToMapLastWins(ps: seq<Param>, i: nat)
    requires i < |ps|
    requires forall j :: i < j < |ps| ==> ps[j].0 != ps[i].0
    ensures ps[i].0 in ToMap(ps) && ToMap(ps)[ps[i].0] == ps[i].1
  {
    if i < |ps| - 1 {
      var init := ps[..|ps| - 1];
      assert forall j :: i < j < |init| ==> init[j] == ps[j];
      ToMapLastWins(init, i);
    }
  }

  /** Every entry of the dictionary is one of the written parameters. */
  lemma {:induction false} ToMapEntry(ps: seq<Param>, k: string)
    requires k in ToMap(ps)
    ensures exists i :: 0 <= i < |ps| && ps[i] == (k, ToMap(ps)[k])
  {
    var last := ps[|ps| - 1];
    if last.0 != k {
      var init := ps[..|ps| - 1];
      ToMapEntry(init, k);
      var i :| 0 <= i < |init| && init[i] == (k, ToMap(init)[k]);
      assert ps[i] == init[i];
    } else {
      assert ps[|ps| - 1] == (k, ToMap(ps)[k]);
    }
  }

  /** Inserting two runs in turn: the later run overrides the earlier. */
  lemma {:induction false} ToMapAppend(a: seq<Param>, b: seq<Param>)
    ensures ToMap(a + b) == ToMap(a) + ToMap(b)
    decreases |b|
  {
    if |b| == 0 {
      assert a + b == a;
    } else {
      var ab := a + b;
      assert ab[..|ab| - 1] == a + b[..|b| - 1];
      ToMapAppend(a, b[..|b| - 1]);
    }
  }

  /** Overriding one key after a union is overriding it in the right operand. */
  lemma UnionUpdate(a: map<string, Value>, b: map<string, Value>, k: string, v: Value)
    ensures (a + b)[k := v] == a + b[k := v]
  {
  }

  // ---------------------------------------------------------------------
  // Command-line options and their normalisation

  datatype ItemType = Generic | Network | Note

  /** The options as optparse delivers them (gkeyring.py:63-104), with
      their defaults in `DefaultOptions`. */
  datatype Options = Options(
    itemType: ItemType,
    keyring: Option<string>,
    id: Option<int>,
    params: string,
    paramsInt: string,
    output: string,
    noNewline: bool,
    output1: bool,
    create: bool,
    name: Option<string>,
    password: Option<string>,
    delete: bool)

  const DefaultOptions := Options(Generic, None, None, "", "", "id,secret",
                                  false, false, false, None, None, false)

  /** Python's truthiness of an optional string. */
  predicate Given(s: Option<string>) { s.Some? && s.value != "" }

  /** Python's truthiness of `options.id` (an id of 0 counts as absent). */
  predicate IdGiven(id: Option<int>) { id.Some? && id.value != 0 }

  /** Why `parse_args` calls `parser.error` (the process then exits 2). */
  datatype UsageError = MissingParams | BadStringParams | BadIntParams | MissingName

  /** The instance fields `parse_args` fills in. */
  datatype Config = Config(
    keyring: Option<string>,
    params: map<string, Value>,
    id: Option<int>,
    itemType: ItemType,
    secret: Option<string>,
    name: Option<string>,
    output: seq<string>,
    noNewline: bool)

  /** The options after `parse_args` rewrote them in place: `-1` becomes
      `--output secret --no-newline`, and `--set` without a password takes
      the one typed at the prompt (gkeyring.py:174-183). */
  function Normalised(o: Options, prompted: string): Options
  {
    var o1 := if o.output1 then o.(output := "secret", noNewline := true) else o;
    if o1.create && !Given(o1.password) then o1.(password := Some(prompted)) else o1
  }

  /** What `parse_args` accepts and the fields it then sets
      (gkeyring.py:138-192); `prompted` is what getpass would return. */
  function ParseConfig(o: Options, prompted: string): Result<Config, UsageError>
  {
    if o.params == "" && o.paramsInt == "" && (o.create || !IdGiven(o.id)) then
      Failure(MissingParams)
    else
      match ParseParams(o.params, false)
      case None => Failure(BadStringParams)
      case Some(sp) =>
        match ParseParams(o.paramsInt, true)
        case None => Failure(BadIntParams)
        case Some(ip) =>
          if o.create && !Given(o.name) then Failure(MissingName)
          else
            var n := Normalised(o, prompted);
            Success(Config(
              if Given(o.keyring) then o.keyring else None,
              ToMap(sp + ip), n.id, n.itemType, n.password, n.name,
              Split(n.output, ','), n.noNewline))
  }

  /** The fields of an accepted run, given that each check passed. */
  lemma ConfigOfAccepted(o: Options, prompted: string)
    requires !(o.params == "" && o.paramsInt == "" && (o.create || !IdGiven(o.id)))
    requires ParseParams(o.params, false).Some? && ParseParams(o.paramsInt, true).Some?
    requires !(o.create && !Given(o.name))
    ensures ParseConfig(o, prompted).Success?
    ensures var n := Normalised(o, prompted);
            ParseConfig(o, prompted).value ==
            Config(if Given(o.keyring) then o.keyring else None,
                   ToMap(ParseParams(o.params, false).value) + ToMap(ParseParams(o.paramsInt, true).value),
                   n.id, n.itemType, n.password, n.name, Split(n.output, ','), n.noNewline)
  {
    ToMapAppend(ParseParams(o.params, false).value, ParseParams(o.paramsInt, true).value);
  }

  /** Without `-p` and `-i` the run is refused exactly when `--set` is
      given or no `--id` is (gkeyring.py:138-140). */
  lemma MissingParamsRule(o: Options, prompted: string)
    requires o.params == "" && o.paramsInt == ""
    ensures ParseConfig(o, prompted).Failure? <==> o.create || !IdGiven(o.id)
  {
    assert Split("", ',') == [""];
    assert ParseTokens([""], false) == Some([]);
    assert ParseTokens([""], true) == Some([]);
  }

  /** `-1` forces the single column `secret` and no trailing newline;
      otherwise the columns are `--output` split on `,`
      (gkeyring.py:174-176, 189-190). */
  lemma OutputColumns(o: Options, prompted: string)
    requires ParseConfig(o, prompted).Success?
    ensures var c := ParseConfig(o, prompted).value;
            if o.output1 then c.output == ["secret"] && c.noNewline
            else c.output == Split(o.output, ',') && c.noNewline == o.noNewline
  {
    var n := Normalised(o, prompted);
    assert n.output == (if o.output1 then "secret" else o.output);
    assert n.noNewline == (o.output1 || o.noNewline);
    SplitWithout("secret", ',');
  }

  /** All parameters land in one dictionary, `-i` entries after `-p`
      entries, so an integer parameter overrides a string parameter of the
      same name (gkeyring.py:150, 164). */
  lemma IntParamsOverride(o: Options, prompted: string)
    requires ParseConfig(o, prompted).Success?
    ensures ParseParams(o.params, false).Some? && ParseParams(o.paramsInt, true).Some?
    ensures ParseConfig(o, prompted).value.params ==
            ToMap(ParseParams(o.params, false).value) + ToMap(ParseParams(o.paramsInt, true).value)
  {
    ToMapAppend(ParseParams(o.params, false).value, ParseParams(o.paramsInt, true).value);
  }

  /** `--set` needs `-n`; a missing password is asked for. */
  lemma SetNeedsName(o: Options, prompted: string)
    requires o.create && ParseParams(o.params, false).Some? && ParseParams(o.paramsInt, true).Some?
    requires o.params != "" || o.paramsInt != ""
    ensures ParseConfig(o, prompted).Success? <==> Given(o.name)
    ensures ParseConfig(o, prompted).Success? ==>
            ParseConfig(o, prompted).value.secret ==
            (if Given(o.password) then o.password else Some(prompted))
  {
  }

  // ---------------------------------------------------------------------
  // Query output

  /** A matched keyring item as `query` collects it. `name` is only read
      when the `name` column is asked for, which is also when the script
      fetches it. */
  datatype Item = Item(id: int, secret: string, name: string, attrs: map<string, Value>)

  /** The value a column names: the keywords `id`, `secret` and `name`
      come before same-named properties; an unknown column names nothing
      (gkeyring.py:250-258). */
  function Lookup(item: Item, col: string): Option<Value>
  {
    if col == "id" then Some(Int(item.id))
    else if col == "secret" then Some(Str(item.secret))
    else if col == "name" then Some(Str(item.name))
    else if col in item.attrs then Some(item.attrs[col])
    else None
  }

  /** What one column writes: nothing for no value or a falsy value
      (gkeyring.py:260-261). */
  function Cell(item: Item, col: string): string
  {
    match Lookup(item, col)
    case Some(v) => if Truthy(v) then ValueText(v) else ""
    case None => ""
  }

  function Cells(item: Item, cols: seq<string>): seq<string>
  {
    seq(|cols|, j requires 0 <= j < |cols| => Cell(item, cols[j]))
  }

  /** One result: its cells separated by single tabs. */
  function Row(item: Item, cols: seq<string>): string
  {
    Join(Cells(item, cols), '\t')
  }

  function Rows(items: seq<Item>, cols: seq<string>): seq<string>
  {
    seq(|items|, i requires 0 <= i < |items| => Row(items[i], cols))
  }

  /** What `query` writes (gkeyring.py:239-264): nothing for no results;
      otherwise the rows separated by single newlines, and one more
      newline unless `noNewline`. */
  function Render(items: seq<Item>, cols: seq<string>, noNewline: bool): string
  {
    if |items| == 0 then ""
    else Join(Rows(items, cols), '\n') + (if noNewline then "" else "\n")
  }

  /** The reading of an output a consumer would make: drop the final
      newline, split into lines, split each line on tabs. */
  function ReadTable(out: string, noNewline: bool): seq<seq<string>>
  {
    var body := if !noNewline && |out| > 0 && out[|out| - 1] == '\n' then out[..|out| - 1] else out;
    var lines := Split(body, '\n');
    seq(|lines|, i requires 0 <= i < |lines| => Split(lines[i], '\t'))
  }

  /** The keywords win over properties of the same name. */
  lemma KeywordsShadowProperties(item: Item, col: string, attrs: map<string, Value>)
    requires col == "id" || col == "secret" || col == "name"
    ensures Lookup(item.(attrs := attrs), col) == Lookup(item, col)
  {
  }

  /** An unknown column and a falsy value both write nothing; the tab
      before the cell is written all the same (see RenderReadsBack). */
  lemma SilentCells(item: Item, col: string)
    ensures Lookup(item, col).None? ==> Cell(item, col) == ""
    ensures Lookup(item, col).Some? && !Truthy(Lookup(item, col).value) ==> Cell(item, col) == ""
    ensures col != "id" && col != "secret" && col != "name" && col !in item.attrs ==> Cell(item, col) == ""
  {
  }

  /** One row read back: no newline in it, and its tabs separate the
      cells again. */
  lemma RowReadsBack(item: Item, cols: seq<string>)
    requires |cols| > 0
    requires forall j :: 0 <= j < |cols| ==> '\t' !in Cell(item, cols[j]) && '\n' !in Cell(item, cols[j])
    ensures '\n' !in Row(item, cols) && Split(Row(item, cols), '\t') == Cells(item, cols)
  {
    var cells := Cells(item, cols);
    assert forall j :: 0 <= j < |cells| ==> cells[j] == Cell(item, cols[j]);
    JoinAvoids(cells, '\t', '\n');
    SplitJoin(cells, '\t');
  }

  /** Dropping the final newline (unless `noNewline`) leaves the rows
      joined by newlines. */
  lemma RenderBody(items: seq<Item>, cols: seq<string>, noNewline: bool)
    requires |items| > 0
    ensures var out := Render(items, cols, noNewline);
            (if !noNewline && |out| > 0 && out[|out| - 1] == '\n' then out[..|out| - 1] else out) ==
            Join(Rows(items, cols), '\n')
  {
    var body := Join(Rows(items, cols), '\n');
    var out := Render(items, cols, noNewline);
    if !noNewline {
      assert out == body + "\n";
      assert out[..|out| - 1] == body;
    } else {
      assert out == body + "";
    }
  }

  /** Reading lines that hold no newline back from their joining gives
      the lines, each split on tabs. */
  lemma ReadTableOfLines(out: string, noNewline: bool, lines: seq<string>)
    requires |lines| >= 1
    requires forall i :: 0 <= i < |lines| ==> '\n' !in lines[i]
    requires (if !noNewline && |out| > 0 && out[|out| - 1] == '\n' then out[..|out| - 1] else out) ==
             Join(lines, '\n')
    ensures ReadTable(out, noNewline) == seq(|lines|, i requires 0 <= i < |lines| => Split(lines[i], '\t'))
  {
    SplitJoin(lines, '\n');
  }

  /** Every row is free of newlines and splits back into its cells. */
  lemma RowsReadBack(items: seq<Item>, cols: seq<string>)
    requires |cols| > 0
    requires forall i, j :: 0 <= i < |items| && 0 <= j < |cols| ==>
               '\t' !in Cell(items[i], cols[j]) && '\n' !in Cell(items[i], cols[j])
    ensures forall i :: 0 <= i < |items| ==>
              '\n' !in Rows(items, cols)[i] && Split(Rows(items, cols)[i], '\t') == Cells(items[i], cols)
  {
    forall i | 0 <= i < |items|
      ensures '\n' !in Rows(items, cols)[i] && Split(Rows(items, cols)[i], '\t') == Cells(items[i], cols)
    {
      RowReadsBack(items[i], cols);
    }
  }

  /** Layout: when no cell holds a tab or a newline, reading the output
      back gives one line per result and one field per column. */
  lemma RenderReadsBack(items: seq<Item>, cols: seq<string>, noNewline: bool)
    requires |items| > 0 && |cols| > 0
    requires forall i, j :: 0 <= i < |items| && 0 <= j < |cols| ==>
               '\t' !in Cell(items[i], cols[j]) && '\n' !in Cell(items[i], cols[j])
    ensures |ReadTable(Render(items, cols, noNewline), noNewline)| == |items|
    ensures forall i :: 0 <= i < |items| ==>
              ReadTable(Render(items, cols, noNewline), noNewline)[i] == Cells(items[i], cols)
  {
    var rows := Rows(items, cols);
    RowsReadBack(items, cols);
    RenderBody(items, cols, noNewline);
    ReadTableOfLines(Render(items, cols, noNewline), noNewline, rows);
  }

  /** The results' secrets, in order. */
  function Secrets(items: seq<Item>): seq<string>
  {
    seq(|items|, i requires 0 <= i < |items| => items[i].secret)
  }

  /** With `-1` the output is the secrets, one per line, and nothing
      else; for a single result, exactly its secret. */
  lemma SecretOnlyOutput(items: seq<Item>)
    requires |items| > 0
    ensures Render(items, ["secret"], true) == Join(Secrets(items), '\n')
    ensures |items| == 1 ==> Render(items, ["secret"], true) == items[0].secret
  {
    var secrets := Secrets(items);
    forall i | 0 <= i < |items| ensures Rows(items, ["secret"])[i] == secrets[i] {
      assert Cells(items[i], ["secret"]) == [items[i].secret];
    }
    assert Rows(items, ["secret"]) == secrets;
  }

  /** With `--output=id` a single result prints its id and a newline,
      which `int()` reads back. */
  lemma IdOutputReadsBack(item: Item)
    requires item.id != 0
    ensures Render([item], ["id"], false) == IntToString(item.id) + "\n"
    ensures ParseInt(Render([item], ["id"], false)) == Some(item.id)
  {
    assert Cells(item, ["id"]) == [IntToString(item.id)];
    assert Rows([item], ["id"]) == [IntToString(item.id)];
    ParseIntOfIntToString(item.id, "\n");
  }

  /** With `--output=id` and two or more results whose first two ids are
      non-zero, the output holds a line break between two ids, which
      `int()` refuses. */
  lemma SeveralIdsUnreadable(items: seq<Item>)
    requires |items| >= 2 && items[0].id != 0 && items[1].id != 0
    ensures ParseInt(Render(items, ["id"], false)) == None
  {
    var rows := Rows(items, ["id"]);
    assert Cells(items[0], ["id"]) == [IntToString(items[0].id)];
    assert Cells(items[1], ["id"]) == [IntToString(items[1].id)];
    assert rows[0] == IntToString(items[0].id);
    assert rows[1..][0] == IntToString(items[1].id);
    JoinCons(rows, '\n');
    JoinFirst(rows[1..], '\n');
    IntToStringChars(items[1].id);
    var rest := Join(rows[1..], '\n') + "\n";
    assert rest[0] == IntToString(items[1].id)[0];
    ParseIntRefusesTwoLines(items[0].id, rest);
    Associate(IntToString(items[0].id) + "\n", Join(rows[1..], '\n'), "\n");
  }

  // ---------------------------------------------------------------------
  // Running the script

  /** What the keyring library answers: the items a query collects (the
      item with `--id`, or the matches of the parameters; when the library
      raised partway, whatever was collected before, gkeyring.py:217-237), the id of a created item (None when creation
      raised) and whether a deletion went through. */
  datatype Keyring = Keyring(found: seq<Item>, created: Option<int>, deleted: bool)

  /** The exit statuses the script can produce: 2 on a usage error, 0 or
      5 from `execute`, 1 when interrupted (gkeyring.py:198, 207, 318). */
  const HelperExitCodes: set<int> := {0, 1, 2, 5}

  /** The status `execute` passes to `sys.exit` (gkeyring.py:197-207). */
  function ExitCode(parsed: bool, succeeded: bool): (code: int)
    ensures code in HelperExitCodes
    ensures code == 2 <==> !parsed
    ensures code == 0 <==> parsed && succeeded
    ensures code == 5 <==> parsed && !succeeded
  {
    if !parsed then 2 else if succeeded then 0 else 5
  }

  /** Exit status and standard output of one run of the script. */
  function HelperRun(o: Options, prompted: string, k: Keyring): (int, string)
  {
    match ParseConfig(o, prompted)
    case Failure(_) => (ExitCode(false, false), "")
    case Success(c) =>
      if o.create then
        (ExitCode(true, k.created.Some?),
         if k.created.Some? then IntToString(k.created.value) + "\n" else "")
      else if o.delete then (ExitCode(true, k.deleted), "")
      else (ExitCode(true, |k.found| > 0), Render(k.found, c.output, c.noNewline))
  }

  /** A run exits 2 exactly on a usage error, otherwise 0 or 5; a query
      that finds nothing writes nothing and exits 5. */
  lemma HelperRunStatus(o: Options, prompted: string, k: Keyring)
    ensures HelperRun(o, prompted, k).0 in {0, 2, 5}
    ensures HelperRun(o, prompted, k).0 == 2 <==> ParseConfig(o, prompted).Failure?
    ensures ParseConfig(o, prompted).Success? && !o.create && !o.delete && k.found == [] ==>
            HelperRun(o, prompted, k) == (5, "")
  {
  }

  /** The script's state: the instance fields of `CLI` and its standard
      output. */
  class CLI {
    var options: Options
    var keyring: Option<string>
    var params: map<string, Value>
    var id: Option<int>
    var itemType: ItemType
    var secret: Option<string>
    var name: Option<string>
    var output: seq<string>
    var noNewline: bool
    /** Everything written to standard output so far. */
    var stdout: string

    constructor ()
      ensures options == DefaultOptions && params == map[] && stdout == ""
    {
      options := DefaultOptions;
      keyring := None;
      params := map[];
      id := None;
      itemType := Generic;
      secret := None;
      name := None;
      output := [];
      noNewline := false;
      stdout := "";
    }

    /** The fields `parse_args` sets, as one value. */
    function Settings(): Config
      reads this
    {
      Config(keyring, params, id, itemType, secret, name, output, noNewline)
    }

    /** One of the parsing loops of `parse_args` (gkeyring.py:143-167):
        inserts each parameter of `spec` into `params` in order; false on
        the first token that does not parse. */
    method AddParams(spec: string, asInt: bool) returns (ok: bool)
      modifies this`params
      ensures ok == ParseParams(spec, asInt).Some?
      ensures ok ==> params == old(params) + ToMap(ParseParams(spec, asInt).value)
    {
      var tokens := Split(spec, ',');
      ghost var done: seq<Param> := [];
      var i := 0;
      assert tokens[0..] == tokens;
      PrependNothing(ParseTokens(tokens, asInt));
      while i < |tokens|
        invariant 0 <= i <= |tokens|
        invariant ParseTokens(tokens, asInt) == Prepend(done, ParseTokens(tokens[i..], asInt))
        invariant params == old(params) + ToMap(done)
      {
        var tupl := tokens[i];
        ParseTokensAt(tokens, i, asInt);
        if tupl != "" {
          var split := SplitAtFirst(tupl, '=');
          if split.None? {
            assert ParseTokens(tokens[i..], asInt).None?;
            return false;
          }
          var (name, val) := split.value;
          var value: Value;
          if asInt {
            var n := ParseInt(val);
            if n.None? {
              assert ParseTokens(tokens[i..], asInt).None?;
              return false;
            }
            value := Int(n.value);
          } else {
            value := Str(val);
          }
          assert ParseToken(tupl, asInt) == Some((name, value));
          ghost var rest := ParseTokens(tokens[i + 1..], asInt);
          assert ParseTokens(tokens[i..], asInt) == Prepend([(name, value)], rest);
          PrependTwice(done, [(name, value)], rest);
          ToMapSnoc(done, (name, value));
          UnionUpdate(old(params), ToMap(done), name, value);
          params := params[name := value];
          done := done + [(name, value)];
        }
        i := i + 1;
      }
      assert tokens[|tokens|..] == [];
      PrependTwice(done, [], Some([]));
      assert done + [] == done;
      ok := true;
    }

    /** The two parameter loops of `parse_args` (gkeyring.py:142-167):
        `-p` first, then `-i`; false as soon as either is malformed. */
    method ReadParams(opts: Options) returns (ok: bool)
      requires params == map[]
      modifies this`params
      ensures ok == (ParseParams(opts.params, false).Some? && ParseParams(opts.paramsInt, true).Some?)
      ensures ok ==> params == ToMap(ParseParams(opts.params, false).value) +
                               ToMap(ParseParams(opts.paramsInt, true).value)
    {
      ok := AddParams(opts.params, false);
      if !ok {
        return;
      }
      ghost var stringParams := params;
      assert stringParams == ToMap(ParseParams(opts.params, false).value);
      ok := AddParams(opts.paramsInt, true);
    }

    /** The rest of `parse_args` (gkeyring.py:169-192): the keyring, the
        rewriting of `options` for `-1` and `--set`, and the copy into the
        instance fields; false when `--set` comes without a name. */
    method ApplyOptions(prompted: string) returns (ok: bool)
      modifies this`options, this`keyring, this`secret, this`id, this`name,
               this`itemType, this`output, this`noNewline
      ensures ok == !(old(options).create && !Given(old(options).name))
      ensures ok ==> options == Normalised(old(options), prompted)
      ensures ok ==> keyring == (if Given(old(options).keyring) then old(options).keyring else None)
      ensures ok ==> secret == options.password && id == options.id && name == options.name &&
                     itemType == options.itemType && output == Split(options.output, ',') &&
                     noNewline == options.noNewline
      ensures options.create == old(options).create && options.delete == old(options).delete
    {
      keyring := if Given(options.keyring) then options.keyring else None;
      if options.output1 {
        options := options.(output := "secret", noNewline := true);
      }
      if options.create {
        if !Given(options.name) {
          return false;
        }
        if !Given(options.password) {
          options := options.(password := Some(prompted));
        }
      }
      CopyOptions();
      ok := true;
    }

    /** The copy of the options into the instance fields
        (gkeyring.py:185-190). */
    method CopyOptions()
      modifies this`secret, this`id, this`name, this`itemType, this`output, this`noNewline
      ensures secret == options.password && id == options.id && name == options.name &&
              itemType == options.itemType && output == Split(options.output, ',') &&
              noNewline == options.noNewline
    {
      secret := options.password;
      id := options.id;
      name := options.name;
      itemType := options.itemType;
      output := Split(options.output, ',');
      noNewline := options.noNewline;
    }

    /** `parse_args` after optparse (gkeyring.py:138-192); `prompted` is
        what the password prompt would return. */
    method ParseArgs(opts: Options, prompted: string) returns (ok: bool)
      requires params == map[]
      modifies this
      ensures stdout == old(stdout)
      ensures options.create == opts.create && options.delete == opts.delete
      ensures ok == ParseConfig(opts, prompted).Success?
      ensures ok ==> Settings() == ParseConfig(opts, prompted).value &&
                     options == Normalised(opts, prompted)
    {
      options := opts;
      if opts.params == "" && opts.paramsInt == "" && (opts.create || !IdGiven(opts.id)) {
        return false;
      }
      ok := ReadParams(opts);
      if !ok {
        return;
      }
      ok := ApplyOptions(prompted);
      if ok {
        ConfigOfAccepted(opts, prompted);
      }
    }

    /** One column of a row (gkeyring.py:247-261): a tab unless it is
        the first column, then the column's cell. */
    method WriteCell(item: Item, col: string, tab: bool) returns ()
      modifies this`stdout
      ensures stdout == old(stdout) + ((if tab then ['\t'] else []) + Cell(item, col))
    {
      if tab {
        stdout := stdout + "\t";
      }
      var out := Lookup(item, col);
      if out.Some? && Truthy(out.value) {
        stdout := stdout + ValueText(out.value);
      }
      Associate(old(stdout), if tab then ['\t'] else [], Cell(item, col));
    }

    /** One row of `query`'s output (gkeyring.py:246-261): the columns'
        cells, a tab before every cell but the first. */
    method WriteRow(item: Item) returns ()
      modifies this`stdout
      ensures stdout == old(stdout) + Row(item, output)
    {
      var cells := Cells(item, output);
      var index2 := 0;
      while index2 < |output|
        invariant 0 <= index2 <= |output|
        invariant stdout == old(stdout) + Join(cells[..index2], '\t')
      {
        WriteCell(item, output[index2], index2 > 0);
        assert cells[index2] == Cell(item, output[index2]);
        JoinSnoc(cells, index2, '\t');
        Associate(old(stdout), Join(cells[..index2], '\t'), (if index2 > 0 then ['\t'] else []) + cells[index2]);
        index2 := index2 + 1;
      }
      assert cells[..|output|] == cells;
    }

    /** The loop over the results in `query` (gkeyring.py:242-262): the
        rows, a newline before every row but the first. */
    method WriteRows(found: seq<Item>) returns ()
      modifies this`stdout
      ensures stdout == old(stdout) + Join(Rows(found, output), '\n')
    {
      var rows := Rows(found, output);
      var index := 0;
      while index < |found|
        invariant 0 <= index <= |found|
        invariant stdout == old(stdout) + Join(rows[..index], '\n')
      {
        ghost var before := stdout;
        if index > 0 {
          stdout := stdout + "\n";
        }
        WriteRow(found[index]);
        assert rows[index] == Row(found[index], output);
        ghost var piece := (if index > 0 then "\n" else "") + rows[index];
        assert stdout == before + piece;
        JoinSnoc(rows, index, '\n');
        Associate(old(stdout), Join(rows[..index], '\n'), piece);
        index := index + 1;
      }
      assert rows[..|found|] == rows;
    }

    /** `query`'s output (gkeyring.py:239-266) over the collected results;
        true when there was at least one. */
    method Query(found: seq<Item>) returns (matched: bool)
      modifies this`stdout
      ensures matched == (|found| > 0)
      ensures stdout == old(stdout) + Render(found, output, noNewline)
    {
      if |found| == 0 {
        return false;
      }
      WriteRows(found);
      if !noNewline {
        stdout := stdout + "\n";
      }
      matched := true;
    }

    /** `execute` (gkeyring.py:194-207): parse, then create, delete or
        query, and return the exit status. The keyring library's answers
        come from `k`. */
    method Execute(opts: Options, prompted: string, k: Keyring) returns (status: int)
      requires params == map[]
      modifies this
      ensures status == HelperRun(opts, prompted, k).0
      ensures stdout == old(stdout) + HelperRun(opts, prompted, k).1
    {
      var parsed := ParseArgs(opts, prompted);
      if !parsed {
        return ExitCode(false, false);
      }
      var ret: bool;
      if options.create {
        // create(): item_create_sync, then `print id`
        ret := k.created.Some?;
        if ret {
          stdout := stdout + IntToString(k.created.value) + "\n";
        }
      } else if options.delete {
        // delete(): item_delete_sync
        ret := k.deleted;
      } else {
        ret := Query(k.found);
      }
      status := ExitCode(true, ret);
    }
  }

  /** `main`: one fresh `CLI` executed once; the exit status and what was
      written to standard output. */
  method RunHelper(opts: Options, prompted: string, k: Keyring) returns (status: int, out: string)
    ensures status == HelperRun(opts, prompted, k).0
    ensures out == HelperRun(opts, prompted, k).1
  {
    var cli := new CLI();
    status := cli.Execute(opts, prompted, k);
    out := cli.stdout;
    EmptyPrefix(HelperRun(opts, prompted, k).1);
  }
}
