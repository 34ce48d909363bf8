/** Format strings: the compiler of "%name" and "%name{parameter}" tokens, and the matcher that
    cuts a text at the delimiters between them. */
module Formats {
  import opened Wrappers

  /** The member of the result a token fills in: a string, a map by parameter, or none. */
  datatype Field = NoField | Value(id: nat) | Params(id: nat)

  datatype Spec = Spec(tok: string, field: Field)

  /** The text up to and including a delimiter; the first one of a format has no field. */
  datatype DTok = DTok(delimiter: string, spec: Spec, param: string)

  const BLANK := DTok("", Spec("", NoField), "")

  datatype Error = NeedsParameter(tok: string) | NoClosingBrace | UnknownFormat


  predicate OccursAt(text: string, d: string, i: nat) {
    i + |d| <= |text| && text[i..i + |d|] == d
  }

  /** std::string::find: the leftmost place at or after pos. */
  function Find(text: string, d: string, pos: nat): (r: Option<nat>)
    requires pos <= |text|
    ensures r.Some? ==> pos <= r.value && r.value + |d| <= |text| && OccursAt(text, d, r.value)
    ensures forall j | pos <= j < (if r.Some? then r.value else |text| + 1) :: !OccursAt(text, d, j)
    decreases |text| - pos
  {
    if OccursAt(text, d, pos) then Some(pos)
    else if pos == |text| then None
    else Find(text, d, pos + 1)
  }

  lemma FoundAt(text: string, d: string, pos: nat, i: nat)
    requires pos <= i && OccursAt(text, d, i) && forall j | pos <= j < i :: !OccursAt(text, d, j)
    ensures Find(text, d, pos) == Some(i)
  {
  }

  /** Finding in the rest of a text is finding in the text from there on. */
  lemma FindInRest(text: string, d: string, pos: nat)
    requires pos <= |text|
    ensures Find(text[pos..], d, 0)
            == match Find(text, d, pos) case Some(i) => Some(i - pos) case None => None
  {
    hide OccursAt;
    var r := Find(text, d, pos);
    forall k: nat | k < (if r.Some? then r.value - pos else |text| + 1 - pos)
      ensures !OccursAt(text[pos..], d, k)
    {
      OccursInRest(text, d, pos, k);
      assert !OccursAt(text, d, pos + k);
    }
    if r.Some? {
      OccursInRest(text, d, pos, r.value - pos);
      FoundAt(text[pos..], d, 0, r.value - pos);
    }
  }

  lemma OccursInRest(text: string, d: string, pos: nat, k: nat)
    requires pos <= |text|
    ensures OccursAt(text[pos..], d, k) <==> OccursAt(text, d, pos + k)
  {
    if pos + k + |d| <= |text| {
      SliceBetween(text, pos, k, k + |d|);
    }
  }

  /** The first listed token whose name the text starts with. */
  function SpecFor(specs: seq<Spec>, s: string): (r: Option<Spec>)
    ensures r.Some? ==> r.value in specs && r.value.tok <= s
    ensures r.None? ==> forall i | 0 <= i < |specs| :: !(specs[i].tok <= s)
  {
    if specs == [] then None
    else if specs[0].tok <= s then Some(specs[0])
    else SpecFor(specs[1..], s)
  }

  /** What follows a lone "%": a token, its parameter, and how many characters they take. */
  datatype Token = Token(spec: Spec, param: string, size: nat)

  function ReadToken(specs: seq<Spec>, s: string): (r: Result<Token, Error>)
    ensures r.Ok? ==> r.value.size <= |s|
  {
    match SpecFor(specs, s)
    case None => Err(UnknownFormat)
    case Some(spec) =>
      var n := |spec.tok|;
      if !spec.field.Params? then Ok(Token(spec, "", n))
      else if n == |s| || s[n] != '{' then Err(NeedsParameter(spec.tok))
      else match Find(s, "}", n + 1)
           case None => Err(NoClosingBrace)
           case Some(c) => Ok(Token(spec, s[n + 1..c], c + 1))
  }

  /** A compilation that continues after some finished tokens. */
  function After(toks: seq<DTok>, r: Result<seq<DTok>, Error>): Result<seq<DTok>, Error> {
    match r case Ok(more) => Ok(toks + more) case Err(e) => Err(e)
  }

  /** The format that the rest of a format string denotes, cur being the token under way. */
  function Compile(specs: seq<Spec>, s: string, cur: DTok): Result<seq<DTok>, Error>
    decreases |s|
  {
    match Find(s, "%", 0)
    case None => Ok([cur.(delimiter := cur.delimiter + s)])
    case Some(n) =>
      var cur' := cur.(delimiter := cur.delimiter + s[..n]);
      var rest := s[n + 1..];
      if rest != "" && rest[0] == '%' then
        Compile(specs, rest[1..], cur'.(delimiter := cur'.delimiter + "%"))
      else match ReadToken(specs, rest)
           case Err(e) => Err(e)
           case Ok(t) =>
             After([cur'], Compile(specs, rest[t.size..], DTok("", t.spec, t.param)))
  }

  /** Literal text in a format string. */
  function Doubled(s: string): string {
    if s == "" then ""
    else (if s[0] == '%' then "%%" else [s[0]]) + Doubled(s[1..])
  }

  function PrintToken(t: DTok): string {
    "%" + t.spec.tok + (if t.spec.field.Params? then "{" + t.param + "}" else "")
  }

  /** The tokens after the first. */
  function PrintRest(toks: seq<DTok>): string {
    if toks == [] then ""
    else PrintToken(toks[0]) + Doubled(toks[0].delimiter) + PrintRest(toks[1..])
  }

  /** The format string of a format. */
  function Print(toks: seq<DTok>): string
    requires toks != []
  {
    Doubled(toks[0].delimiter) + PrintRest(toks[1..])
  }

  /** No name is empty, starts with "%", or is a prefix of another. */
  predicate Distinct(specs: seq<Spec>) {
    && (forall i | 0 <= i < |specs| :: specs[i].tok != "" && specs[i].tok[0] != '%')
    && (forall i, j | 0 <= i < |specs| && 0 <= j < |specs| && i != j :: !(specs[i].tok <= specs[j].tok))
  }

  predicate TokenOk(specs: seq<Spec>, t: DTok) {
    t.spec in specs && if t.spec.field.Params? then '}' !in t.param else t.param == ""
  }

  predicate FormatOk(specs: seq<Spec>, toks: seq<DTok>) {
    && toks != [] && toks[0].spec == BLANK.spec && toks[0].param == ""
    && RestOk(specs, toks)
  }

  lemma Assoc(s: string, t: string, u: string)
    ensures (s + t) + u == s + (t + u)
  {
  }

  lemma {:induction false} DoubledJoin(s: string, t: string)
    ensures Doubled(s + t) == Doubled(s) + Doubled(t)
  {
    if s == "" {
      assert s + t == t;
    } else {
      DoubledJoin(s[1..], t);
      assert (s + t)[1..] == s[1..] + t;
      Assoc(if s[0] == '%' then "%%" else [s[0]], Doubled(s[1..]), Doubled(t));
    }
  }

  lemma {:induction false} DoubledPlain(s: string)
    requires forall i | 0 <= i < |s| :: s[i] != '%'
    ensures Doubled(s) == s
  {
    if s != "" {
      DoubledPlain(s[1..]);
    }
  }

  lemma LiteralPart(s: string, d: string, n: nat)
    requires n <= |s| && forall j | 0 <= j < n :: !OccursAt(s, "%", j)
    ensures Doubled(d + s[..n]) == Doubled(d) + s[..n]
  {
    forall i | 0 <= i < n
      ensures s[..n][i] != '%'
    {
      assert !OccursAt(s, "%", i);
      assert s[i..i + 1] == [s[i]];
    }
    DoubledPlain(s[..n]);
    DoubledJoin(d, s[..n]);
  }

  lemma Braces(s: string, n: nat, c: nat)
    requires n < c < |s| && s[n] == '{' && s[c] == '}'
    ensures s[..c + 1] == s[..n] + ("{" + s[n + 1..c] + "}")
  {
  }

  lemma TokenPrints(specs: seq<Spec>, s: string, d: string)
    requires ReadToken(specs, s).Ok?
    ensures var t := ReadToken(specs, s).value;
            PrintToken(DTok(d, t.spec, t.param)) == "%" + s[..t.size]
  {
    var t := ReadToken(specs, s).value;
    var n := |t.spec.tok|;
    if t.spec.field.Params? {
      var c := Find(s, "}", n + 1).value;
      assert s[c..c + 1] == "}" && s[c] == s[c..c + 1][0];
      Braces(s, n, c);
      Assoc("%", s[..n], "{" + t.param + "}");
    }
  }

  lemma {:induction false} FirstToken(specs: seq<Spec>, s: string, cur: DTok)
    requires Compile(specs, s, cur).Ok?
    ensures var toks := Compile(specs, s, cur).value;
            toks != [] && toks[0].spec == cur.spec && toks[0].param == cur.param
    decreases |s|
  {
    match Find(s, "%", 0)
    case None =>
    case Some(n) =>
      var rest := s[n + 1..];
      if rest != "" && rest[0] == '%' {
        FirstToken(specs, rest[1..], cur.(delimiter := cur.delimiter + s[..n] + "%"));
      }
  }

  lemma PrintSplits(first: DTok, toks: seq<DTok>)
    requires toks != []
    ensures Print([first] + toks) == Doubled(first.delimiter) + (PrintToken(toks[0]) + Print(toks))
  {
    assert ([first] + toks)[1..] == toks;
  }

  /** Printing a successful compilation gives the format string back, whatever the tokens. */
  lemma {:induction false} PrintOfCompile(specs: seq<Spec>, s: string, cur: DTok)
    requires Compile(specs, s, cur).Ok?
    ensures var toks := Compile(specs, s, cur).value;
            toks != [] && Print(toks) == Doubled(cur.delimiter) + s
    decreases |s|
  {
    hide OccursAt, ReadToken, Doubled, PrintRest;
    match Find(s, "%", 0)
    case None =>
      PrintOne(cur.(delimiter := cur.delimiter + s));
      LiteralPart(s, cur.delimiter, |s|);
      assert s[..|s|] == s;
    case Some(n) =>
      var rest := s[n + 1..];
      if rest != "" && rest[0] == '%' {
        var next := cur.(delimiter := cur.delimiter + s[..n] + "%");
        PrintOfCompile(specs, rest[1..], next);
        DoubledPercent(s, cur.delimiter, n);
      } else {
        var t := ReadToken(specs, rest).value;
        PrintOfCompile(specs, rest[t.size..], DTok("", t.spec, t.param));
        PrintOfToken(specs, s, cur, n);
      }
  }

  lemma PrintOne(t: DTok)
    ensures Print([t]) == Doubled(t.delimiter)
  {
    assert Doubled(t.delimiter) + "" == Doubled(t.delimiter);
  }

  lemma DoubledPercent(s: string, d: string, n: nat)
    requires Find(s, "%", 0) == Some(n) && n + 1 < |s| && s[n + 1] == '%'
    ensures Doubled(d + s[..n] + "%") + s[n + 1..][1..] == Doubled(d) + s
  {
    assert s[n] == s[n..n + 1][0];
    LiteralPart(s, d, n);
    DoubledJoin(d + s[..n], "%");
    assert Doubled("%") == "%%";
    assert s[..n] + "%%" + s[n + 1..][1..] == s;
  }

  lemma CompiledToken(specs: seq<Spec>, s: string, cur: DTok, n: nat)
    requires Find(s, "%", 0) == Some(n) && !(s[n + 1..] != "" && s[n + 1..][0] == '%')
    requires Compile(specs, s, cur).Ok?
    ensures ReadToken(specs, s[n + 1..]).Ok?
    ensures var t := ReadToken(specs, s[n + 1..]).value;
            var rest := Compile(specs, s[n + 1..][t.size..], DTok("", t.spec, t.param));
            && rest.Ok?
            && Compile(specs, s, cur).value == [cur.(delimiter := cur.delimiter + s[..n])] + rest.value
  {
    hide Find, ReadToken;
  }

  lemma PrintOfToken(specs: seq<Spec>, s: string, cur: DTok, n: nat)
    requires Find(s, "%", 0) == Some(n) && !(s[n + 1..] != "" && s[n + 1..][0] == '%')
    requires Compile(specs, s, cur).Ok?
    requires var t := ReadToken(specs, s[n + 1..]).value;
             var after := s[n + 1..][t.size..];
             var toks := Compile(specs, after, DTok("", t.spec, t.param)).value;
             toks != [] && Print(toks) == Doubled("") + after
    ensures Print(Compile(specs, s, cur).value) == Doubled(cur.delimiter) + s
  {
    assert Doubled("") == "";
    CompiledToken(specs, s, cur, n);
    hide Compile, Doubled, ReadToken, Find;
    var rest := s[n + 1..];
    var t := ReadToken(specs, rest).value;
    var next := DTok("", t.spec, t.param);
    var toks := Compile(specs, rest[t.size..], next).value;
    var cur' := cur.(delimiter := cur.delimiter + s[..n]);
    FirstToken(specs, rest[t.size..], next);
    TokenPrints(specs, rest, toks[0].delimiter);
    PrintSplits(cur', toks);
    LiteralPart(s, cur.delimiter, n);
    Parts(Doubled(cur.delimiter), s, n, t.size);
  }

  lemma Whole(s: string, n: nat)
    requires n <= |s|
    ensures s[..n] + s[n..] == s
  {
  }

  lemma Parts(d: string, s: string, n: nat, size: nat)
    requires n < |s| && s[n] == '%' && size <= |s| - n - 1
    ensures d + s[..n] + ("%" + s[n + 1..][..size] + ("" + s[n + 1..][size..])) == d + s
  {
    var rest := s[n + 1..];
    Whole(rest, size);
    Whole(s, n);
    assert s[n..] == "%" + rest;
    assert "" + rest[size..] == rest[size..];
    Assoc("%", rest[..size], rest[size..]);
    Assoc(d, s[..n], s[n..]);
  }

  predicate RestOk(specs: seq<Spec>, toks: seq<DTok>) {
    forall i | 1 <= i < |toks| :: TokenOk(specs, toks[i])
  }

  lemma ConsOk(specs: seq<Spec>, first: DTok, toks: seq<DTok>)
    requires toks != [] && TokenOk(specs, toks[0]) && RestOk(specs, toks)
    ensures RestOk(specs, [first] + toks)
  {
    forall i | 1 <= i < |toks| + 1
      ensures TokenOk(specs, ([first] + toks)[i])
    {
      assert ([first] + toks)[i] == toks[i - 1];
    }
  }

  /** parse only makes well-formed tokens. */
  lemma {:induction false} CompileIsOk(specs: seq<Spec>, s: string, cur: DTok)
    requires Compile(specs, s, cur).Ok?
    ensures RestOk(specs, Compile(specs, s, cur).value)
    decreases |s|
  {
    hide OccursAt, ReadToken, TokenOk;
    if Find(s, "%", 0).Some? {
      var n := Find(s, "%", 0).value;
      var rest := s[n + 1..];
      if rest != "" && rest[0] == '%' {
        CompileIsOk(specs, rest[1..], cur.(delimiter := cur.delimiter + s[..n] + "%"));
      } else {
        var t := ReadToken(specs, rest).value;
        var next := DTok("", t.spec, t.param);
        CompileIsOk(specs, rest[t.size..], next);
        FirstToken(specs, rest[t.size..], next);
        var toks := Compile(specs, rest[t.size..], next).value;
        TokenIsOk(specs, rest, toks[0]);
        ConsOk(specs, cur.(delimiter := cur.delimiter + s[..n]), toks);
      }
    }
  }

  lemma TokenIsOk(specs: seq<Spec>, s: string, t: DTok)
    requires ReadToken(specs, s).Ok?
    requires t.spec == ReadToken(specs, s).value.spec && t.param == ReadToken(specs, s).value.param
    ensures TokenOk(specs, t)
  {
    if t.spec.field.Params? {
      var n := |t.spec.tok|;
      var c := Find(s, "}", n + 1).value;
      forall j | n + 1 <= j < c
        ensures s[j] != '}'
      {
        assert !OccursAt(s, "}", j);
        assert s[j..j + 1] == [s[j]];
      }
    }
  }

  lemma CompileChar(specs: seq<Spec>, x: char, s: string, cur: DTok)
    requires x != '%'
    ensures Compile(specs, [x] + s, cur) == Compile(specs, s, cur.(delimiter := cur.delimiter + [x]))
  {
    var w := [x] + s;
    assert w[1..] == s && w[0..1] == [x];
    assert !OccursAt(w, "%", 0);
    FindInRest(w, "%", 1);
    match Find(s, "%", 0)
    case None =>
      assert cur.delimiter + w == cur.delimiter + [x] + s;
    case Some(n) =>
      assert w[n + 2..] == s[n + 1..];
      assert w[..n + 1] == [x] + s[..n];
      assert cur.delimiter + w[..n + 1] == cur.delimiter + [x] + s[..n];
  }

  lemma CompileDouble(specs: seq<Spec>, s: string, cur: DTok)
    ensures Compile(specs, "%%" + s, cur) == Compile(specs, s, cur.(delimiter := cur.delimiter + "%"))
  {
    var w := "%%" + s;
    assert w[0..1] == "%";
    FoundAt(w, "%", 0, 0);
    assert w[0 + 1..] == "%" + s && ("%" + s)[1..] == s;
    assert cur.delimiter + w[..0] == cur.delimiter;
  }

  /** Literal text is read back into the delimiter. */
  lemma {:induction false} CompileLiteral(specs: seq<Spec>, d: string, s: string, cur: DTok)
    ensures Compile(specs, Doubled(d) + s, cur) == Compile(specs, s, cur.(delimiter := cur.delimiter + d))
    decreases |d|
  {
    hide Compile;
    if d == "" {
      assert Doubled(d) + s == s && cur.delimiter + d == cur.delimiter;
    } else {
      var rest := Doubled(d[1..]) + s;
      if d[0] == '%' {
        CompileDouble(specs, rest, cur);
        Assoc("%%", Doubled(d[1..]), s);
      } else {
        CompileChar(specs, d[0], rest, cur);
        Assoc([d[0]], Doubled(d[1..]), s);
      }
      CompileLiteral(specs, d[1..], s, cur.(delimiter := cur.delimiter + [d[0]]));
      Assoc(cur.delimiter, [d[0]], d[1..]);
      assert [d[0]] + d[1..] == d;
    }
  }

  /** Among names of which none is a prefix of another, the one that was printed is read. */
  lemma {:induction false} SpecRead(specs: seq<Spec>, k: nat, s: string)
    requires k < |specs| && specs[k].tok <= s
    requires forall i | 0 <= i < k :: !(specs[i].tok <= specs[k].tok) && !(specs[k].tok <= specs[i].tok)
    ensures SpecFor(specs, s) == Some(specs[k])
    decreases k
  {
    if k > 0 {
      assert !(specs[0].tok <= s);
      SpecRead(specs[1..], k - 1, s);
    }
  }

  lemma ParameterRead(tok: string, param: string, s: string)
    requires '}' !in param
    ensures var w := tok + "{" + param + "}" + s;
            var n := |tok|;
            w[n] == '{' && Find(w, "}", n + 1) == Some(n + 1 + |param|) && w[n + 1..n + 1 + |param|] == param
  {
    var w := tok + "{" + param + "}" + s;
    var n := |tok|;
    var c := n + 1 + |param|;
    assert w[c..c + 1] == "}";
    forall j | n + 1 <= j < c
      ensures !OccursAt(w, "}", j)
    {
      assert w[j] == param[j - n - 1];
      assert w[j..j + 1] == [w[j]];
    }
    FoundAt(w, "}", n + 1, c);
  }

  function TokenText(t: DTok): string {
    if t.spec.field.Params? then t.spec.tok + "{" + t.param + "}" else t.spec.tok
  }

  lemma TokenRead(specs: seq<Spec>, t: DTok, s: string)
    requires Distinct(specs) && TokenOk(specs, t)
    ensures TokenText(t) != "" && TokenText(t)[0] != '%'
    ensures ReadToken(specs, TokenText(t) + s) == Ok(Token(t.spec, t.param, |TokenText(t)|))
  {
    hide Find, OccursAt, SpecFor;
    var k :| 0 <= k < |specs| && specs[k] == t.spec;
    var w := TokenText(t) + s;
    assert t.spec.tok <= w;
    SpecRead(specs, k, w);
    if t.spec.field.Params? {
      ParameterRead(t.spec.tok, t.param, s);
    }
  }

  lemma CompileAtPercent(specs: seq<Spec>, body: string, cur: DTok)
    requires body == "" || body[0] != '%'
    ensures Compile(specs, "%" + body, cur)
            == if ReadToken(specs, body).Err? then Err(ReadToken(specs, body).error)
               else
                 var t := ReadToken(specs, body).value;
                 After([cur], Compile(specs, body[t.size..], DTok("", t.spec, t.param)))
  {
    var w := "%" + body;
    assert w[0..1] == "%" && w[..0] == "" && w[0 + 1..] == body;
    FoundAt(w, "%", 0, 0);
    assert cur.delimiter + "" == cur.delimiter;
  }

  lemma CompileToken(specs: seq<Spec>, t: DTok, s: string, cur: DTok)
    requires Distinct(specs) && TokenOk(specs, t)
    ensures Compile(specs, PrintToken(t) + s, cur) == After([cur], Compile(specs, s, DTok("", t.spec, t.param)))
  {
    hide Compile, ReadToken, Distinct, TokenOk;
    TokenRead(specs, t, s);
    var body := TokenText(t) + s;
    CompileAtPercent(specs, body, cur);
    TokenTextEnds(t, s);
  }

  lemma TokenTextEnds(t: DTok, s: string)
    ensures PrintToken(t) + s == "%" + (TokenText(t) + s)
    ensures (TokenText(t) + s)[|TokenText(t)|..] == s
  {
    assert PrintToken(t) == "%" + TokenText(t);
  }

  lemma {:induction false} CompileRest(specs: seq<Spec>, toks: seq<DTok>, cur: DTok)
    requires Distinct(specs) && forall i | 0 <= i < |toks| :: TokenOk(specs, toks[i])
    ensures Compile(specs, PrintRest(toks), cur) == Ok([cur] + toks)
    decreases |toks|
  {
    hide Compile, Doubled, PrintToken, TokenOk, Distinct;
    if toks == [] {
      CompileEnd(specs, cur);
    } else {
      var t := toks[0];
      var next := DTok("", t.spec, t.param);
      var rest := PrintRest(toks[1..]);
      CompileRest(specs, toks[1..], t);
      CompileLiteral(specs, t.delimiter, rest, next);
      CompileToken(specs, t, Doubled(t.delimiter) + rest, cur);
      Assoc(PrintToken(t), Doubled(t.delimiter), rest);
      assert "" + t.delimiter == t.delimiter;
      assert [t] + toks[1..] == toks;
    }
  }

  lemma CompileEnd(specs: seq<Spec>, cur: DTok)
    ensures Compile(specs, "", cur) == Ok([cur] + [])
  {
    assert cur.delimiter + "" == cur.delimiter;
    assert [cur] + [] == [cur];
  }

  /** parse reads a printed format back, for any delimiter text. */
  lemma CompileOfPrint(specs: seq<Spec>, toks: seq<DTok>)
    requires Distinct(specs) && FormatOk(specs, toks)
    ensures Compile(specs, Print(toks), BLANK) == Ok(toks)
  {
    CompileLiteral(specs, toks[0].delimiter, PrintRest(toks[1..]), BLANK);
    CompileRest(specs, toks[1..], toks[0]);
    assert "" + toks[0].delimiter == toks[0].delimiter;
    assert [toks[0]] + toks[1..] == toks;
  }

  /** parse accepts exactly the printed forms of well-formed formats, each as the format it is
      printed from. */
  lemma ParseIff(specs: seq<Spec>, s: string, toks: seq<DTok>)
    requires Distinct(specs)
    ensures Compile(specs, s, BLANK) == Ok(toks) <==> FormatOk(specs, toks) && Print(toks) == s
  {
    if Compile(specs, s, BLANK) == Ok(toks) {
      PrintOfCompile(specs, s, BLANK);
      CompileIsOk(specs, s, BLANK);
      FirstToken(specs, s, BLANK);
      assert Doubled("") + s == s;
    }
    if FormatOk(specs, toks) && Print(toks) == s {
      CompileOfPrint(specs, toks);
    }
  }

  lemma SliceTo(s: string, a: nat, b: nat)
    requires a + b <= |s|
    ensures s[a..][..b] == s[a..a + b]
  {
  }

  lemma SliceFrom(s: string, a: nat, b: nat)
    requires a + b <= |s|
    ensures s[a..][b..] == s[a + b..]
  {
  }

  lemma SliceBetween(s: string, a: nat, b: nat, c: nat)
    requires b <= c && a + c <= |s|
    ensures s[a..][b..c] == s[a + b..a + c]
  {
  }

  /** The token at a position of the whole format string. */
  lemma ReadAt(specs: seq<Spec>, s: string, pos: nat, spec: Spec)
    requires pos <= |s| && SpecFor(specs, s[pos..]) == Some(spec)
    ensures pos + |spec.tok| <= |s|
    ensures var n := pos + |spec.tok|;
            ReadToken(specs, s[pos..])
            == if !spec.field.Params? then Ok(Token(spec, "", n - pos))
               else if n == |s| || s[n] != '{' then Err(NeedsParameter(spec.tok))
               else
                 var c := Find(s, "}", n + 1);
                 if c.None? then Err(NoClosingBrace)
                 else Ok(Token(spec, s[n + 1..c.value], c.value + 1 - pos))
  {
    hide OccursAt, SpecFor, Find;
    var rest := s[pos..];
    var n := |spec.tok|;
    if spec.field.Params? && n < |rest| {
      FindInRest(s, "}", pos + n + 1);
      FindInRest(rest, "}", n + 1);
      SliceFrom(s, pos, n + 1);
      var c := Find(s, "}", pos + n + 1);
      if c.Some? {
        SliceBetween(s, pos, n + 1, c.value - pos);
      }
    }
  }

  /** The token and parameter that formatstr has at pos. */
  method ReadTokenAt(specs: seq<Spec>, formatstr: string, pos: nat) returns (r: Result<Token, Error>)
    requires pos <= |formatstr|
    ensures r == ReadToken(specs, formatstr[pos..])
  {
    hide ReadToken, OccursAt, SpecFor;
    var it := 0;
    assert specs[0..] == specs;
    while it < |specs|
      invariant 0 <= it <= |specs|
      invariant SpecFor(specs, formatstr[pos..]) == SpecFor(specs[it..], formatstr[pos..])
    {
      var spec := specs[it];
      var ssize := |spec.tok|;
      FirstSpec(specs, it, formatstr, pos);
      if pos + ssize <= |formatstr| && formatstr[pos..pos + ssize] == spec.tok {
        ReadAt(specs, formatstr, pos, spec);
        if !spec.field.Params? {
          return Ok(Token(spec, "", ssize));
        }
        if pos + ssize == |formatstr| || formatstr[pos + ssize] != '{' {
          return Err(NeedsParameter(spec.tok));
        }
        var cpos := Find(formatstr, "}", pos + ssize + 1);
        if cpos.None? {
          return Err(NoClosingBrace);
        }
        return Ok(Token(spec, formatstr[pos + ssize + 1..cpos.value], cpos.value + 1 - pos));
      }
      it := it + 1;
    }
    NoSpec(specs, formatstr[pos..]);
    return Err(UnknownFormat);
  }

  lemma NoSpec(specs: seq<Spec>, s: string)
    requires SpecFor(specs, s) == SpecFor(specs[|specs|..], s)
    ensures ReadToken(specs, s) == Err(UnknownFormat)
  {
  }

  lemma FirstSpec(specs: seq<Spec>, it: nat, s: string, pos: nat)
    requires it < |specs| && pos <= |s|
    ensures SpecFor(specs[it..], s[pos..])
            == if pos + |specs[it].tok| <= |s| && s[pos..pos + |specs[it].tok|] == specs[it].tok then Some(specs[it])
               else SpecFor(specs[it + 1..], s[pos..])
  {
    var n := |specs[it].tok|;
    if pos + n <= |s| {
      SliceTo(s, pos, n);
    }
    assert specs[it..][1..] == specs[it + 1..];
  }

  lemma CompileAtDouble(specs: seq<Spec>, s: string, pos: nat, q: nat, cur: DTok)
    requires pos <= |s| && Find(s, "%", pos) == Some(q) && q + 1 < |s| && s[q + 1] == '%'
    ensures Compile(specs, s[pos..], cur)
            == Compile(specs, s[q + 2..], cur.(delimiter := cur.delimiter + s[pos..q] + "%"))
  {
    hide ReadToken, OccursAt, Find, After;
    FindInRest(s, "%", pos);
    var rest, n := s[pos..], q - pos;
    SliceTo(s, pos, n);
    SliceFrom(s, pos, n + 1);
    SliceFrom(s, q + 1, 1);
    assert Find(rest, "%", 0) == Some(n) && rest[n + 1..] == s[q + 1..];
    assert s[q + 1..][0] == '%';
  }

  lemma CompileAtToken(specs: seq<Spec>, s: string, pos: nat, q: nat, cur: DTok)
    requires pos <= |s| && Find(s, "%", pos) == Some(q) && !(q + 1 < |s| && s[q + 1] == '%')
    ensures Compile(specs, s[pos..], cur)
            == if ReadToken(specs, s[q + 1..]).Err? then Err(ReadToken(specs, s[q + 1..]).error)
               else
                 var t := ReadToken(specs, s[q + 1..]).value;
                 After([cur.(delimiter := cur.delimiter + s[pos..q])],
                       Compile(specs, s[q + 1 + t.size..], DTok("", t.spec, t.param)))
  {
    hide ReadToken, OccursAt, Find, After;
    FindInRest(s, "%", pos);
    SliceTo(s, pos, q - pos);
    SliceFrom(s, pos, q - pos + 1);
    if ReadToken(specs, s[q + 1..]).Ok? {
      SliceFrom(s, q + 1, ReadToken(specs, s[q + 1..]).value.size);
    }
  }

  lemma CompileAtEnd(specs: seq<Spec>, s: string, pos: nat, cur: DTok)
    requires pos <= |s| && Find(s, "%", pos).None?
    ensures Compile(specs, s[pos..], cur) == Ok([cur.(delimiter := cur.delimiter + s[pos..])])
  {
    FindInRest(s, "%", pos);
  }

  lemma AfterAfter(toks: seq<DTok>, more: seq<DTok>, r: Result<seq<DTok>, Error>)
    ensures After(toks, After(more, r)) == After(toks + more, r)
  {
    if r.Ok? {
      assert toks + (more + r.value) == toks + more + r.value;
    }
  }

  /** FParser::parse. */
  method Parse(specs: seq<Spec>, formatstr: string) returns (r: Result<seq<DTok>, Error>)
    ensures r == Compile(specs, formatstr, BLANK)
  {
    hide Compile, ReadToken;
    var toks: seq<DTok> := [];
    var dtok := BLANK;
    var pos := 0;
    assert formatstr[0..] == formatstr;
    AfterNone(Compile(specs, formatstr, BLANK));
    while true
      invariant 0 <= pos <= |formatstr|
      invariant Compile(specs, formatstr, BLANK) == After(toks, Compile(specs, formatstr[pos..], dtok))
      decreases |formatstr| - pos
    {
      var nextf := Find(formatstr, "%", pos);
      if nextf.None? {
        CompileAtEnd(specs, formatstr, pos, dtok);
        dtok := dtok.(delimiter := dtok.delimiter + formatstr[pos..]);
        break;
      }
      ghost var cur, from := dtok, pos;
      dtok := dtok.(delimiter := dtok.delimiter + formatstr[pos..nextf.value]);
      pos := nextf.value + 1;
      if pos < |formatstr| && formatstr[pos] == '%' {
        CompileAtDouble(specs, formatstr, from, nextf.value, cur);
        dtok := dtok.(delimiter := dtok.delimiter + "%");
        pos := pos + 1;
        continue;
      }
      CompileAtToken(specs, formatstr, from, nextf.value, cur);
      var t := ReadTokenAt(specs, formatstr, pos);
      if t.Err? {
        return Err(t.error);
      }
      AfterAfter(toks, [dtok],
                 Compile(specs, formatstr[pos + t.value.size..], DTok("", t.value.spec, t.value.param)));
      toks := toks + [dtok];
      dtok := DTok("", t.value.spec, t.value.param);
      pos := pos + t.value.size;
    }
    toks := toks + [dtok];
    return Ok(toks);
  }

  lemma AfterNone(r: Result<seq<DTok>, Error>)
    ensures After([], r) == r
  {
    if r.Ok? {
      assert [] + r.value == r.value;
    }
  }

  /** The first listed token that s starts with is the i-th. */
  ghost predicate FirstListed(specs: seq<Spec>, s: string, i: int) {
    0 <= i < |specs| && specs[i].tok <= s && forall j | 0 <= j < i :: !(specs[j].tok <= s)
  }

  lemma OnlyOneFirst(specs: seq<Spec>, s: string, i: int, j: int)
    requires FirstListed(specs, s, i) && FirstListed(specs, s, j)
    ensures i == j
  {
  }

  lemma {:induction false} SpecForIsFirst(specs: seq<Spec>, s: string)
    ensures SpecFor(specs, s).None? ==> forall i | 0 <= i < |specs| :: !(specs[i].tok <= s)
    ensures SpecFor(specs, s).Some? ==> exists i :: FirstListed(specs, s, i) && specs[i] == SpecFor(specs, s).value
    decreases |specs|
  {
    if specs != [] {
      if specs[0].tok <= s {
        assert FirstListed(specs, s, 0);
      } else {
        SpecForIsFirst(specs[1..], s);
        if i :| FirstListed(specs[1..], s, i) && specs[1..][i] == SpecFor(specs, s).value {
          forall j | 0 <= j < i + 1
            ensures !(specs[j].tok <= s)
          {
            assert j > 0 ==> specs[j] == specs[1..][j - 1];
          }
          assert specs[i + 1] == specs[1..][i];
          assert FirstListed(specs, s, i + 1);
        }
      }
    }
  }

  /** A "}" somewhere from n on. */
  predicate Closed(s: string, n: nat) {
    exists c :: n <= c < |s| && s[c] == '}'
  }

  lemma ClosedIsFound(s: string, n: nat)
    requires n <= |s|
    ensures Closed(s, n) <==> Find(s, "}", n).Some?
  {
    forall c | 0 <= c < |s|
      ensures OccursAt(s, "}", c) <==> s[c] == '}'
    {
      assert s[c..c + 1] == [s[c]];
    }
  }

  /** Why a token cannot be read: none is listed, or the first one listed takes a parameter and no "{"
      follows, or no "}" does. */
  lemma ReadErrors(specs: seq<Spec>, s: string)
    ensures ReadToken(specs, s) == Err(UnknownFormat) <==> forall i | 0 <= i < |specs| :: !(specs[i].tok <= s)
    ensures forall i | FirstListed(specs, s, i) ::
              var n := |specs[i].tok|;
              && (ReadToken(specs, s) == Err(NeedsParameter(specs[i].tok)) <==>
                    specs[i].field.Params? && (n == |s| || s[n] != '{'))
              && (ReadToken(specs, s) == Err(NoClosingBrace) <==>
                    specs[i].field.Params? && n < |s| && s[n] == '{' && !Closed(s, n + 1))
  {
    hide Find, Closed;
    SpecForIsFirst(specs, s);
    forall i | FirstListed(specs, s, i)
      ensures SpecFor(specs, s) == Some(specs[i])
      ensures |specs[i].tok| < |s| ==> (Closed(s, |specs[i].tok| + 1) <==> Find(s, "}", |specs[i].tok| + 1).Some?)
    {
      var k :| FirstListed(specs, s, k) && specs[k] == SpecFor(specs, s).value;
      OnlyOneFirst(specs, s, i, k);
      if |specs[i].tok| < |s| {
        ClosedIsFound(s, |specs[i].tok| + 1);
      }
    }
  }

  /** A format string that does not parse fails at one of its "%", with the error of reading a token there. */
  lemma {:induction false} CompileFailsAt(specs: seq<Spec>, s: string, cur: DTok)
    requires Compile(specs, s, cur).Err?
    ensures exists n :: 0 < n <= |s| && s[n - 1] == '%' && ReadToken(specs, s[n..]) == Err(Compile(specs, s, cur).error)
    decreases |s|
  {
    hide ReadToken;
    var n := Find(s, "%", 0).value;
    var cur' := cur.(delimiter := cur.delimiter + s[..n]);
    var rest := s[n + 1..];
    assert OccursAt(s, "%", n) && s[n..n + 1] == "%";
    assert s[n] == '%';
    if rest != "" && rest[0] == '%' {
      CompileFailsAt(specs, rest[1..], cur'.(delimiter := cur'.delimiter + "%"));
      FailsFurtherOn(specs, s, n + 2, Compile(specs, s, cur).error);
    } else if ReadToken(specs, rest).Ok? {
      var t := ReadToken(specs, rest).value;
      CompileFailsAt(specs, rest[t.size..], DTok("", t.spec, t.param));
      assert rest[t.size..] == s[n + 1 + t.size..];
      FailsFurtherOn(specs, s, n + 1 + t.size, Compile(specs, s, cur).error);
    }
  }

  lemma FailsFurtherOn(specs: seq<Spec>, s: string, a: nat, e: Error)
    requires a <= |s| && exists n :: 0 < n <= |s[a..]| && s[a..][n - 1] == '%' && ReadToken(specs, s[a..][n..]) == Err(e)
    ensures exists n :: 0 < n <= |s| && s[n - 1] == '%' && ReadToken(specs, s[n..]) == Err(e)
  {
    hide ReadToken;
    var n :| 0 < n <= |s[a..]| && s[a..][n - 1] == '%' && ReadToken(specs, s[a..][n..]) == Err(e);
    assert s[a..][n..] == s[a + n..];
    assert s[a + n - 1] == '%';
  }
}
