/** Reading the KEY=VALUE configuration file. */
module EnvFile {
  import opened Text

  datatype ParseError = NoAssignment | InvalidKey | Unterminated | TrailingGarbage

  datatype Result<+T> = Ok(value: T) | Err(error: ParseError)

  // ----- quoted values -----

  /** Where a scan of a double-quoted value ends: never, or at a closing quote with something after it. */
  datatype Scan = Open | Closed(value: string, tail: string)

  function ScanFrom(t: string, escaped: bool): Scan {
    if t == "" then Open
    else if escaped then Cons(t[0], ScanFrom(t[1..], false))
    else if t[0] == '\\' then ScanFrom(t[1..], true)
    else if t[0] == '"' then Closed("", t[1..])
    else Cons(t[0], ScanFrom(t[1..], false))
  }

  function Cons(c: char, s: Scan): Scan { if s.Open? then Open else Closed([c] + s.value, s.tail) }

  function Append(b: string, s: Scan): Scan { if s.Open? then Open else Closed(b + s.value, s.tail) }

  /** Nothing but blanks, or a comment. */
  predicate EndsLine(tail: string) { TrimSpace(tail) == "" || "#" <= TrimSpace(tail) }

  function Unquoted(s: string): Result<string>
    requires s != ""
  {
    var scan := ScanFrom(s[1..], false);
    if scan.Open? then Err(Unterminated)
    else if !EndsLine(scan.tail) then Err(TrailingGarbage)
    else Ok(scan.value)
  }

  lemma ScanStep(s: string, i: nat, escaped: bool)
    requires i < |s|
    ensures ScanFrom(s[i..], escaped)
         == if escaped then Cons(s[i], ScanFrom(s[i + 1..], false))
            else if s[i] == '\\' then ScanFrom(s[i + 1..], true)
            else if s[i] == '"' then Closed("", s[i + 1..])
            else Cons(s[i], ScanFrom(s[i + 1..], false))
  {
    assert s[i..][0] == s[i] && s[i..][1..] == s[i + 1..];
  }

  lemma AppendCons(b: string, c: char, scan: Scan)
    ensures Append(b, Cons(c, scan)) == Append(b + [c], scan)
  {
    if scan.Closed? { assert (b + [c]) + scan.value == b + ([c] + scan.value); }
  }

  method UnquoteDouble(s: string) returns (r: Result<string>)
    requires s != ""
    ensures r == Unquoted(s)
  {
    var b, escaped := "", false;
    var i := 1;
    while i < |s|
      invariant 1 <= i <= |s|
      invariant Append(b, ScanFrom(s[i..], escaped)) == ScanFrom(s[1..], false)
    {
      var c := s[i];
      ScanStep(s, i, escaped);
      AppendCons(b, c, ScanFrom(s[i + 1..], false));
      if escaped {
        b, escaped := b + [c], false;
      } else if c == '\\' {
        escaped := true;
      } else if c == '"' {
        assert b + "" == b;
        if !EndsLine(s[i + 1..]) { return Err(TrailingGarbage); }
        return Ok(b);
      } else {
        b := b + [c];
      }
      i := i + 1;
    }
    return Err(Unterminated);
  }

  /** The text a quoted body stands for: a backslash makes the next character plain; a bare quote, or a backslash
      with nothing after it, is not a body. */
  function Decode(body: string): Option<string> {
    if body == "" then Some("")
    else if body[0] == '"' then None
    else if body[0] != '\\' then Pushed(body[0], Decode(body[1..]))
    else if |body| == 1 then None
    else Pushed(body[1], Decode(body[2..]))
  }

  function Pushed(c: char, v: Option<string>): Option<string> { if v.None? then None else Some([c] + v.value) }

  lemma {:induction false} ScanOfBody(body: string, tail: string)
    requires Decode(body).Some?
    ensures ScanFrom(body + "\"" + tail, false) == Closed(Decode(body).value, tail)
  {
    var t := body + "\"" + tail;
    if body == "" {
      assert t == "\"" + tail && t[1..] == tail;
    } else if body[0] != '\\' {
      ScanOfBody(body[1..], tail);
      assert t[1..] == body[1..] + "\"" + tail;
    } else {
      ScanOfBody(body[2..], tail);
      assert t[1..][0] == body[1] && t[1..][1..] == body[2..] + "\"" + tail;
    }
  }

  lemma {:induction false} BodyOfScan(t: string) returns (body: string)
    requires ScanFrom(t, false).Closed?
    ensures t == body + "\"" + ScanFrom(t, false).tail
    ensures Decode(body) == Some(ScanFrom(t, false).value)
  {
    if t[0] == '"' {
      body := "";
    } else if t[0] != '\\' {
      var rest := BodyOfScan(t[1..]);
      body := [t[0]] + rest;
      assert body[1..] == rest;
    } else {
      assert t[1..] != "" && ScanFrom(t[1..], true) == Cons(t[1], ScanFrom(t[2..], false)) by {
        assert t[1..][1..] == t[2..];
      }
      var rest := BodyOfScan(t[2..]);
      body := t[..2] + rest;
      assert body[2..] == rest && body[0] == '\\' && body[1] == t[1];
    }
  }

  /** A double-quoted value is accepted exactly when it is a body between quotes with nothing but blanks or a
      comment after it, and it then stands for what the body does. Everything else is unterminated or has garbage
      after its closing quote. */
  lemma UnquotedIff(s: string, v: string)
    requires s != "" && s[0] == '"'
    ensures Unquoted(s) == Ok(v) <==>
            exists body, tail :: s == "\"" + body + "\"" + tail && Decode(body) == Some(v) && EndsLine(tail)
    ensures Unquoted(s) == Err(Unterminated) <==>
            !exists body, tail :: s == "\"" + body + "\"" + tail && Decode(body).Some?
  {
    var t := s[1..];
    if ScanFrom(t, false).Closed? {
      var body := BodyOfScan(t);
      assert s == "\"" + body + "\"" + ScanFrom(t, false).tail;
    }
    forall body, tail | s == "\"" + body + "\"" + tail && Decode(body).Some?
      ensures ScanFrom(t, false) == Closed(Decode(body).value, tail)
    {
      assert t == body + "\"" + tail;
      ScanOfBody(body, tail);
    }
  }

  function Escape(v: string): string {
    if v == "" then "" else (if v[0] == '"' || v[0] == '\\' then ['\\', v[0]] else [v[0]]) + Escape(v[1..])
  }

  lemma {:induction false} EscapeRoundTrip(v: string)
    ensures Decode(Escape(v)) == Some(v)
  {
    if v != "" {
      EscapeRoundTrip(v[1..]);
      var e := Escape(v);
      assert e[|e| - |Escape(v[1..])|..] == Escape(v[1..]);
      assert v == [v[0]] + v[1..];
    }
  }

  /** Any text at all survives quoting. */
  lemma QuotedRoundTrip(v: string)
    ensures Unquoted("\"" + Escape(v) + "\"") == Ok(v)
  {
    var s := "\"" + Escape(v) + "\"";
    EscapeRoundTrip(v);
    ScanOfBody(Escape(v), "");
    assert s[1..] == Escape(v) + "\"" + "";
  }

  function UnquotedSingle(s: string): Result<string>
    requires s != ""
  {
    var end := Index(s[1..], '\'');
    if end < 0 then Err(Unterminated)
    else if !EndsLine(s[end + 2..]) then Err(TrailingGarbage)
    else Ok(s[1..end + 1])
  }

  /** A single-quoted value is accepted exactly when it is any text without a single quote, between quotes, with nothing
      but blanks or a comment after it, and it then stands for that text. It is unterminated exactly when no second
      quote follows; otherwise there is garbage after the quote. */
  lemma UnquotedSingleIff(s: string, v: string)
    requires s != "" && s[0] == '\''
    ensures UnquotedSingle(s) == Ok(v) <==>
            '\'' !in v && exists tail :: s == "'" + v + "'" + tail && EndsLine(tail)
    ensures UnquotedSingle(s) == Err(Unterminated) <==> '\'' !in s[1..]
    ensures UnquotedSingle(s).Err? && '\'' in s[1..] ==> UnquotedSingle(s) == Err(TrailingGarbage)
  {
    if UnquotedSingle(s) == Ok(v) { SingleQuoteTail(s, v); }
    if tail :| '\'' !in v && s == "'" + v + "'" + tail && EndsLine(tail) { SingleQuoteJoins(s, v, tail); }
  }

  lemma SingleQuoteTail(s: string, v: string)
    requires s != "" && s[0] == '\'' && UnquotedSingle(s) == Ok(v)
    ensures '\'' !in v && exists tail :: s == "'" + v + "'" + tail && EndsLine(tail)
  {
    var end := Index(s[1..], '\'');
    SingleQuoteSplits(s, end);
    assert v == s[1..end + 1] && EndsLine(s[end + 2..]);
  }

  lemma SingleQuoteJoins(s: string, v: string, tail: string)
    requires s == "'" + v + "'" + tail && '\'' !in v
    ensures Index(s[1..], '\'') == |v| && s[|v| + 2..] == tail && s[1..|v| + 1] == v
  {
    var t := s[1..];
    assert t == v + "'" + tail && t[|v|] == '\'' && t[..|v|] == v;
    IndexIs(t, '\'', |v|);
  }

  lemma SingleQuoteSplits(s: string, end: nat)
    requires s != "" && s[0] == '\'' && end == Index(s[1..], '\'')
    ensures s == "'" + s[1..end + 1] + "'" + s[end + 2..] && '\'' !in s[1..end + 1]
  {
    assert s[1..][end] == s[end + 1] && s[1..][..end] == s[1..end + 1];
  }

  // ----- keys -----

  function Underscored(s: string): (t: string)
    ensures |t| == |s|
  {
    seq(|s|, i requires 0 <= i < |s| => if s[i] == '-' then '_' else s[i])
  }

  /** One name for the spellings of a key. */
  function CanonicalFileKey(k: string): string {
    TrimPrefix(ToUpper(Underscored(TrimPrefix(TrimSpace(k), "--"))), "RSR_")
  }

  predicate KeyChar(c: char) { c == '_' || c == '-' || IsLetter(c) || IsDigit(c) }

  predicate ValidEnvKey(k: string) {
    && k != "" && (k[0] == '_' || IsLetter(k[0]))
    && forall c | c in k :: KeyChar(c)
  }

  // ----- lines -----

  datatype Binding = Binding(key: string, value: string)

  /** The value to the right of the equals sign. */
  function ValueOf(rest: string): Result<string> {
    if rest == "" then Ok("")
    else if rest[0] == '"' then Unquoted(rest)
    else if rest[0] == '\'' then UnquotedSingle(rest)
    else Ok(TrimSpace(rest))
  }

  predicate AcceptedKey(key: string) {
    CanonicalFileKey(key) != "" && (ValidEnvKey(key) || ValidEnvKey(CanonicalFileKey(key)))
  }

  function ParsedLine(line: string): Result<Binding> {
    var eq := Index(line, '=');
    if eq <= 0 then Err(NoAssignment)
    else if !AcceptedKey(TrimSpace(line[..eq])) then Err(InvalidKey)
    else
      match ValueOf(line[eq + 1..])
      case Err(e) => Err(e)
      case Ok(v) => Ok(Binding(TrimSpace(line[..eq]), v))
  }

  method ParseEnvLine(line: string) returns (r: Result<Binding>)
    ensures r == ParsedLine(line)
  {
    var eq := Index(line, '=');
    if eq <= 0 { return Err(NoAssignment); }
    var key := TrimSpace(line[..eq]);
    if CanonicalFileKey(key) == "" || (!ValidEnvKey(key) && !ValidEnvKey(CanonicalFileKey(key))) {
      return Err(InvalidKey);
    }
    var rest := line[eq + 1..];
    var value: Result<string>;
    if rest == "" {
      value := Ok("");
    } else if rest[0] == '"' {
      value := UnquoteDouble(rest);
    } else if rest[0] == '\'' {
      value := UnquotedSingle(rest);
    } else {
      value := Ok(TrimSpace(rest));
    }
    if value.Err? { return Err(value.error); }
    return Ok(Binding(key, value.value));
  }

  // ----- the file -----

  datatype Effect = Skip | Assign(key: string, value: string) | Bad(error: ParseError)

  function WithoutExport(line: string): string {
    if "export " <= line then TrimSpace(line[|"export"|..]) else line
  }

  predicate Blank(line: string) { line == "" || "#" <= line }

  function WithoutReturn(raw: string): string { if HasSuffix(raw, "\r") then raw[..|raw| - 1] else raw }

  /** What one line does. */
  function LineEffect(raw: string): Effect {
    var line := TrimSpace(WithoutReturn(raw));
    if Blank(line) then Skip
    else
      match ParsedLine(WithoutExport(line))
      case Err(e) => Bad(e)
      case Ok(b) =>
        if ValidEnvKey(CanonicalFileKey(b.key)) then Assign(CanonicalFileKey(b.key), b.value) else Bad(InvalidKey)
  }

  /** The map the file gives, or the number of its first bad line, and what is wrong there. */
  datatype Loaded = Map(m: map<string, string>) | BadLine(number: nat, error: ParseError)

  /** One more line, the number-th: nothing follows a bad one. */
  function Loading(before: Loaded, e: Effect, number: nat): Loaded {
    match before
    case BadLine(_, _) => before
    case Map(m) =>
      match e
      case Skip => before
      case Assign(k, v) => Map(m[k := v])
      case Bad(error) => BadLine(number, error)
  }

  function LoadedLines(lines: seq<string>): Loaded {
    if lines == [] then Map(map[])
    else Loading(LoadedLines(lines[..|lines| - 1]), LineEffect(lines[|lines| - 1]), |lines|)
  }

  function SplitLines(text: string): seq<string>
    decreases |text|
  {
    var i := Index(text, '\n');
    if i < 0 then [text] else [text[..i]] + SplitLines(text[i + 1..])
  }

  lemma LoadedStep(lines: seq<string>, i: nat)
    requires i < |lines|
    ensures LoadedLines(lines[..i + 1]) == Loading(LoadedLines(lines[..i]), LineEffect(lines[i]), i + 1)
  {
    assert lines[..i + 1][..i] == lines[..i];
  }

  method LoadEnvFile(text: string) returns (r: Loaded)
    ensures r == LoadedLines(SplitLines(text))
  {
    var lines := SplitLines(text);
    var out: map<string, string> := map[];
    for i := 0 to |lines|
      invariant LoadedLines(lines[..i]) == Map(out)
    {
      LoadedStep(lines, i);
      var raw := lines[i];
      var e := ReadLine(raw);
      match e
      case Skip =>
      case Assign(k, v) => out := out[k := v];
      case Bad(error) =>
        BadLineStays(lines, i + 1);
        return BadLine(i + 1, error);
    }
    assert lines[..|lines|] == lines;
    return Map(out);
  }

  method ReadLine(raw: string) returns (e: Effect)
    ensures e == LineEffect(raw)
  {
    var line := TrimSpace(if HasSuffix(raw, "\r") then raw[..|raw| - 1] else raw);
    if line == "" || "#" <= line { return Skip; }
    if "export " <= line { line := TrimSpace(line[|"export"|..]); }
    var r := ParseEnvLine(line);
    if r.Err? { return Bad(r.error); }
    var key := CanonicalFileKey(r.value.key);
    if !ValidEnvKey(key) { return Bad(InvalidKey); }
    return Assign(key, r.value.value);
  }

  lemma {:induction false} BadLineStays(lines: seq<string>, k: nat)
    requires k <= |lines| && LoadedLines(lines[..k]).BadLine?
    ensures LoadedLines(lines) == LoadedLines(lines[..k])
    decreases |lines|
  {
    if k == |lines| {
      assert lines[..k] == lines;
    } else {
      var rest := lines[..|lines| - 1];
      assert rest[..k] == lines[..k];
      BadLineStays(rest, k);
    }
  }

  // ----- round trip -----

  lemma {:induction false} TrimRightKeeps(p: string, r: string)
    requires p != "" && !IsSpace(p[|p| - 1])
    ensures TrimRight(p + r) == p + TrimRight(r)
  {
    if r != "" && IsSpace(r[|r| - 1]) {
      TrimRightKeeps(p, r[..|r| - 1]);
      assert (p + r)[..|p + r| - 1] == p + r[..|r| - 1];
    }
  }

  /** A way of writing a key that a line may start with. */
  predicate Spelling(sp: string) {
    sp != "" && (forall c | c in sp :: KeyChar(c)) && ValidEnvKey(CanonicalFileKey(sp))
  }

  lemma SpellingEdges(sp: string)
    requires Spelling(sp)
    ensures TrimSpace(sp) == sp && '=' !in sp
    ensures !IsSpace(sp[0]) && sp[0] != '#'
  {
    assert KeyChar(sp[0]) && KeyChar(sp[|sp| - 1]);
  }

  lemma AssignmentSplits(sp: string, rest: string)
    requires '=' !in sp
    ensures var line := sp + "=" + rest;
            Index(line, '=') == |sp| && line[..|sp|] == sp && line[|sp| + 1..] == rest
  {
    var line := sp + "=" + rest;
    assert line[|sp|] == '=' && line[..|sp|] == sp;
    IndexIs(line, '=', |sp|);
    assert line[|sp| + 1..] == rest;
  }

  lemma NotAnExport(sp: string, rest: string)
    requires forall c | c in sp :: KeyChar(c)
    ensures !("export " <= sp + "=" + rest)
  {
    var line := sp + "=" + rest;
    if |line| >= 7 {
      if |sp| > 6 { assert line[6] == sp[6] && KeyChar(sp[6]); } else { assert line[|sp|] == '='; }
      assert line[6] != ' ' || line[|sp|] != "export "[|sp|];
    }
  }

  lemma AssignmentTrims(sp: string, rest: string)
    requires Spelling(sp)
    ensures TrimSpace(WithoutReturn(sp + "=" + rest)) == sp + "=" + TrimRight(rest)
  {
    var raw := sp + "=" + rest;
    var cut := WithoutReturn(raw);
    SpellingEdges(sp);
    TrimRightKeeps(sp + "=", rest);
    assert raw[0] == sp[0] && raw[|sp|] == '=';
    if HasSuffix(raw, "\r") {
      assert raw[|raw| - 1..][0] == raw[|raw| - 1] == '\r';
      assert |cut| > |sp|;
    }
    assert cut[0] == sp[0] && TrimLeft(cut) == cut && TrimRight(cut) == TrimRight(raw);
  }

  /** What a line that assigns does depends on its key only through the canonical form of the key. */
  lemma AssignmentEffect(sp: string, rest: string)
    requires Spelling(sp)
    ensures LineEffect(sp + "=" + rest)
         == match ValueOf(TrimRight(rest))
            case Ok(v) => Assign(CanonicalFileKey(sp), v)
            case Err(e) => Bad(e)
  {
    AssignmentTrims(sp, rest);
    SpellingEdges(sp);
    NotAnExport(sp, TrimRight(rest));
    AssignmentParses(sp, TrimRight(rest));
    assert (sp + "=" + TrimRight(rest))[0] == sp[0];
  }

  lemma AssignmentParses(sp: string, rest: string)
    requires Spelling(sp)
    ensures ParsedLine(sp + "=" + rest)
         == match ValueOf(rest)
            case Ok(v) => Ok(Binding(sp, v))
            case Err(e) => Err(e)
  {
    SpellingEdges(sp);
    AssignmentSplits(sp, rest);
  }

  datatype Entry = Entry(key: string, value: string)

  /** A key in canonical form and a value that stays on one line. */
  predicate Writable(e: Entry) {
    ValidEnvKey(e.key) && CanonicalFileKey(e.key) == e.key && '\n' !in e.value
  }

  function RenderLine(e: Entry): string { e.key + "=" + "\"" + Escape(e.value) + "\"" }

  function Render(es: seq<Entry>): string {
    if es == [] then "" else RenderLine(es[0]) + "\n" + Render(es[1..])
  }

  function LastWins(es: seq<Entry>): map<string, string> {
    if es == [] then map[]
    else LastWins(es[..|es| - 1])[es[|es| - 1].key := es[|es| - 1].value]
  }

  lemma RenderedLineAssigns(e: Entry)
    requires Writable(e)
    ensures LineEffect(RenderLine(e)) == Assign(e.key, e.value)
  {
    var rest := "\"" + Escape(e.value) + "\"";
    assert RenderLine(e) == e.key + "=" + rest;
    assert rest[|rest| - 1] == '"' && TrimRight(rest) == rest;
    assert rest[|rest| - 1..] == "\"";
    AssignmentEffect(e.key, rest);
    QuotedRoundTrip(e.value);
  }

  lemma {:induction false} EscapeKeepsLine(v: string)
    requires '\n' !in v
    ensures '\n' !in Escape(v)
  {
    if v != "" {
      assert v[0] in v && forall c :: c in v[1..] ==> c in v;
      EscapeKeepsLine(v[1..]);
    }
  }

  lemma RenderedOnOneLine(e: Entry)
    requires Writable(e)
    ensures '\n' !in RenderLine(e)
  {
    EscapeKeepsLine(e.value);
    assert forall c | c in e.key :: KeyChar(c);
  }

  lemma LinesOfCons(line: string, rest: string)
    requires '\n' !in line
    ensures SplitLines(line + "\n" + rest) == [line] + SplitLines(rest)
  {
    var text := line + "\n" + rest;
    assert text[|line|] == '\n' && text[..|line|] == line && text[|line| + 1..] == rest;
    IndexIs(text, '\n', |line|);
  }

  function RenderedLines(es: seq<Entry>): seq<string> {
    seq(|es|, i requires 0 <= i < |es| => RenderLine(es[i]))
  }

  lemma RenderedLinesCons(es: seq<Entry>)
    requires es != []
    ensures RenderedLines(es) + [""] == [RenderLine(es[0])] + (RenderedLines(es[1..]) + [""])
  {}

  lemma {:induction false} LinesOfRender(es: seq<Entry>)
    requires forall e | e in es :: Writable(e)
    ensures SplitLines(Render(es)) == RenderedLines(es) + [""]
  {
    if es != [] {
      RenderedOnOneLine(es[0]);
      LinesOfCons(RenderLine(es[0]), Render(es[1..]));
      LinesOfRender(es[1..]);
      RenderedLinesCons(es);
    } else {
      assert SplitLines("") == [""];
    }
  }

  lemma {:induction false} AssignmentsLoad(effects: seq<Effect>, es: seq<Entry>)
    requires |effects| == |es| && forall i | 0 <= i < |es| :: effects[i] == Assign(es[i].key, es[i].value)
    ensures LoadedOf(effects) == Map(LastWins(es))
  {
    if es != [] { AssignmentsLoad(effects[..|es| - 1], es[..|es| - 1]); }
  }

  lemma RenderedLinesLoad(es: seq<Entry>)
    requires forall e | e in es :: Writable(e)
    ensures LoadedLines(RenderedLines(es)) == Map(LastWins(es))
  {
    var effects := Effects(RenderedLines(es));
    forall i | 0 <= i < |es| ensures effects[i] == Assign(es[i].key, es[i].value) {
      RenderedLineAssigns(es[i]);
    }
    LoadedByEffects(RenderedLines(es));
    AssignmentsLoad(effects, es);
  }

  /** Writing any entries as quoted lines and loading the file gives exactly the map in which the last value of
      each key wins. */
  lemma FileRoundTrip(es: seq<Entry>)
    requires forall e | e in es :: Writable(e)
    ensures LoadedLines(SplitLines(Render(es))) == Map(LastWins(es))
  {
    LinesOfRender(es);
    RenderedLinesLoad(es);
    var lines := RenderedLines(es) + [""];
    assert lines[..|lines| - 1] == RenderedLines(es);
    assert LineEffect("") == Skip;
  }

  // ----- what lines mean -----

  lemma UnquotedValue(a: string, v: string)
    requires AllBlank(a) && Trimmed(v) && (a == "" && v != "" ==> v[0] != '"' && v[0] != '\'')
    ensures ValueOf(a + v) == Ok(v)
  {
    assert a + v + "" == a + v;
    TrimSpaceIs(a, v, "");
    if a != "" { assert (a + v)[0] == a[0] && a[0] in a; }
  }

  lemma TrailingBlanks(a: string, v: string, b: string)
    requires AllBlank(a) && AllBlank(b) && Trimmed(v)
    ensures TrimRight(a + v + b) == if v == "" then "" else a + v
  {
    if v == "" {
      assert a + v + b == "" + (a + b) && AllBlank(a + b);
      TrimRightIs("", a + b);
    } else {
      assert (a + v)[|a + v| - 1] == v[|v| - 1];
      TrimRightIs(a + v, b);
    }
  }

  /** Blanks around an unquoted value do not belong to it. */
  lemma PlainValue(sp: string, a: string, v: string, b: string)
    requires Spelling(sp) && AllBlank(a) && AllBlank(b) && Trimmed(v)
    requires a == "" && v != "" ==> v[0] != '"' && v[0] != '\''
    ensures LineEffect(sp + "=" + (a + v + b)) == Assign(CanonicalFileKey(sp), v)
  {
    AssignmentEffect(sp, a + v + b);
    TrailingBlanks(a, v, b);
    UnquotedValue(a, v);
  }

  /** Any text without a single quote stands for itself between single quotes. */
  lemma SingleQuotedValue(sp: string, v: string)
    requires Spelling(sp) && '\'' !in v
    ensures LineEffect(sp + "=" + ("'" + v + "'")) == Assign(CanonicalFileKey(sp), v)
  {
    var rest := "'" + v + "'";
    AssignmentEffect(sp, rest);
    assert rest[|rest| - 1] == '\'' && TrimRight(rest) == rest;
    assert rest == "'" + v + "'" + "" && EndsLine("");
    UnquotedSingleIff(rest, v);
  }

  lemma EffectOfLine(raw: string, line: string)
    requires TrimSpace(WithoutReturn(raw)) == line && !Blank(line)
    ensures LineEffect(raw)
         == match ParsedLine(WithoutExport(line))
            case Err(e) => Bad(e)
            case Ok(b) =>
              if ValidEnvKey(CanonicalFileKey(b.key)) then Assign(CanonicalFileKey(b.key), b.value) else Bad(InvalidKey)
  {}

  lemma ExportedIsPlain(sp: string, rest: string)
    requires Spelling(sp) && (rest == "" || !IsSpace(rest[|rest| - 1]))
    ensures var line := sp + "=" + rest;
            && WithoutExport("export " + line) == line && WithoutExport(line) == line
            && !Blank(line) && !Blank("export " + line)
  {
    var line := sp + "=" + rest;
    SpellingEdges(sp);
    assert line[0] == sp[0] && ("export " + line)[0] == 'e';
    NotAnExport(sp, rest);
    assert ("export " + line)[|"export"|..] == " " + line;
    ExportedPart(sp, rest);
  }

  /** After a quoted value a line holds blanks, and perhaps a comment. */
  lemma EndsLineIff(tail: string)
    ensures EndsLine(tail) <==> exists a, rest :: tail == a + rest && AllBlank(a) && (rest == "" || rest[0] == '#')
  {
    LeftSplits(tail);
    TrimRightEnds(TrimLeft(tail));
    if EndsLine(tail) {
      RightEmpties(TrimLeft(tail));
      var a := tail[..|tail| - |TrimLeft(tail)|];
      assert tail == a + TrimLeft(tail) && AllBlank(a);
      assert TrimLeft(tail) == "" || TrimLeft(tail)[0] == '#';
    }
    if a, rest :| tail == a + rest && AllBlank(a) && (rest == "" || rest[0] == '#') {
      TrimLeftIs(a, rest);
      if rest != "" { KeepsHash(rest); }
    }
  }

  lemma {:induction false} LeftSplits(s: string)
    ensures |TrimLeft(s)| <= |s| && s == s[..|s| - |TrimLeft(s)|] + TrimLeft(s)
    ensures AllBlank(s[..|s| - |TrimLeft(s)|]) && (TrimLeft(s) == "" || !IsSpace(TrimLeft(s)[0]))
  {
    if s != "" && IsSpace(s[0]) {
      LeftSplits(s[1..]);
      var n := |s| - |TrimLeft(s)|;
      assert s[..n] == [s[0]] + s[1..][..n - 1];
    }
  }

  lemma RightEmpties(s: string)
    requires s == "" || !IsSpace(s[0])
    ensures TrimRight(s) == "" ==> s == ""
    ensures TrimRight(s) != "" ==> TrimRight(s)[0] == s[0]
  {
    if s != "" {
      assert s == s[..1] + s[1..];
      TrimRightKeeps(s[..1], s[1..]);
    }
    TrimRightEnds(s);
  }

  lemma KeepsHash(s: string)
    requires s != "" && s[0] == '#'
    ensures "#" <= TrimRight(s)
  {
    assert s == s[..1] + s[1..] && s[..1] == "#";
    TrimRightKeeps(s[..1], s[1..]);
  }

  /** A line may be exported. */
  lemma ExportIsIgnored(sp: string, rest: string)
    requires Spelling(sp)
    ensures LineEffect("export " + (sp + "=" + rest)) == LineEffect(sp + "=" + rest)
  {
    var line := sp + "=" + TrimRight(rest);
    TrimRightEnds(rest);
    ExportedIsPlain(sp, TrimRight(rest));
    AssignmentTrims(sp, rest);
    WithHead("export ", sp, rest);
    EffectOfLine(sp + "=" + rest, line);
    EffectOfLine("export " + (sp + "=" + rest), "export " + line);
  }

  lemma ReturnIsBlank(head: string, rest: string)
    requires head != "" && !IsSpace(head[0]) && !IsSpace(head[|head| - 1])
    ensures TrimSpace(WithoutReturn(head + rest)) == head + TrimRight(rest)
  {
    var raw := head + rest;
    var cut := WithoutReturn(raw);
    TrimRightKeeps(head, rest);
    assert raw[|head| - 1] == head[|head| - 1] && raw[0] == head[0];
    if HasSuffix(raw, "\r") {
      assert raw[|raw| - 1..][0] == raw[|raw| - 1] == '\r';
      assert |cut| >= |head|;
    }
    assert cut[0] == head[0] && TrimLeft(cut) == cut && TrimRight(cut) == TrimRight(raw);
  }

  lemma Reassociate(e: string, sp: string, rest: string)
    ensures e + sp + "=" + rest == e + (sp + "=" + rest)
  {}

  lemma WithHead(e: string, sp: string, rest: string)
    requires e != "" && !IsSpace(e[0])
    ensures TrimSpace(WithoutReturn(e + (sp + "=" + rest))) == e + (sp + "=" + TrimRight(rest))
  {
    var head := e + sp + "=";
    assert head[|head| - 1] == '=' && head[0] == e[0];
    ReturnIsBlank(head, rest);
    Reassociate(e, sp, rest);
    Reassociate(e, sp, TrimRight(rest));
  }

  lemma ExportedPart(sp: string, rest: string)
    requires Spelling(sp) && (rest == "" || !IsSpace(rest[|rest| - 1]))
    ensures TrimSpace(" " + (sp + "=" + rest)) == sp + "=" + rest
  {
    var plain := sp + "=" + rest;
    SpellingEdges(sp);
    assert plain[0] == sp[0] && (rest != "" ==> plain[|plain| - 1] == rest[|rest| - 1]);
    assert " " + plain + "" == " " + plain;
    TrimSpaceIs(" ", plain, "");
  }

  /** Blank lines and comments do nothing. */
  lemma BlanksAndComments(a: string, comment: string)
    requires AllBlank(a) && Trimmed("#" + comment)
    ensures LineEffect(a) == Skip && LineEffect(a + ("#" + comment)) == Skip
  {
    BlankTrims(a);
    CommentTrims(a, "#" + comment);
  }

  lemma BlankTrims(a: string)
    requires AllBlank(a)
    ensures TrimSpace(WithoutReturn(a)) == ""
  {
    var cut := WithoutReturn(a);
    assert cut + "" + "" == cut && AllBlank(cut);
    TrimSpaceIs(cut, "", "");
  }

  lemma CommentTrims(a: string, line: string)
    requires AllBlank(a) && line != "" && Trimmed(line)
    ensures TrimSpace(WithoutReturn(a + line)) == line
  {
    assert (a + line)[|a + line| - 1] == line[|line| - 1];
    assert (a + line)[|a + line| - 1..] == [line[|line| - 1]];
    assert !HasSuffix(a + line, "\r");
    assert a + line + "" == a + line;
    TrimSpaceIs(a, line, "");
  }

  /** A line with anything in it must assign something. */
  lemma NoAssignmentNoLine(raw: string)
    requires '=' !in raw
    ensures LineEffect(raw) == Skip || LineEffect(raw) == Bad(NoAssignment)
  {
    var line := TrimSpace(WithoutReturn(raw));
    TrimmedChars(WithoutReturn(raw));
    assert '=' !in line;
    if !Blank(line) {
      EffectOfLine(raw, line);
      if "export " <= line { TrimmedChars(line[|"export"|..]); }
      assert '=' !in WithoutExport(line);
    }
  }

  /** It is no assignment exactly when it has no equals sign, or nothing before its first one. */
  lemma NoAssignmentIff(line: string)
    ensures ParsedLine(line) == Err(NoAssignment) <==> '=' !in line || line[0] == '='
  {
    if line != "" && line[0] == '=' { IndexIs(line, '=', 0); }
  }

  /** Whatever line assigns it, a key consists of capital letters, digits and underscores, and starts with no digit. */
  lemma AssignedKeys(raw: string)
    requires LineEffect(raw).Assign?
    ensures var k := LineEffect(raw).key;
            k != "" && !IsDigit(k[0]) && forall c | c in k :: IsUpper(c) || IsDigit(c) || c == '_'
  {
    var key := ParsedLine(WithoutExport(TrimSpace(WithoutReturn(raw)))).value.key;
    var folded := ToUpper(Underscored(TrimPrefix(TrimSpace(key), "--")));
    var k := LineEffect(raw).key;
    assert k == TrimPrefix(folded, "RSR_") && ValidEnvKey(k);
    var cut := |folded| - |k|;
    forall i | 0 <= i < |k| ensures IsUpper(k[i]) || IsDigit(k[i]) || k[i] == '_' {
      var c := TrimPrefix(TrimSpace(key), "--")[cut + i];
      assert k[i] == folded[cut + i] == UpperChar(if c == '-' then '_' else c);
      assert k[i] in k && KeyChar(k[i]);
    }
  }

  lemma {:induction false} TrimmedLeftChars(s: string)
    ensures forall c | c in TrimLeft(s) :: c in s
  {
    if s != "" && IsSpace(s[0]) { TrimmedLeftChars(s[1..]); }
  }

  lemma {:induction false} TrimmedRightChars(s: string)
    ensures forall c | c in TrimRight(s) :: c in s
  {
    if s != "" && IsSpace(s[|s| - 1]) { TrimmedRightChars(s[..|s| - 1]); }
  }

  lemma TrimmedChars(s: string)
    ensures forall c | c in TrimSpace(s) :: c in s
  {
    TrimmedLeftChars(s);
    TrimmedRightChars(TrimLeft(s));
  }

  /** A key holds letters, digits, dashes and underscores alone, and starts with no digit. */
  lemma BadKeys(key: string, value: string, i: nat)
    requires i < |key| && Trimmed(key) && '=' !in key
    requires !KeyChar(key[i]) || IsDigit(key[0])
    ensures ParsedLine(key + "=" + value) == Err(InvalidKey)
  {
    AssignmentSplits(key, value);
    assert "" + key + "" == key;
    TrimSpaceIs("", key, "");
    if IsDigit(key[0]) { DigitFirst(key); } else { BadCharStays(key, i); }
  }

  lemma TrimPrefixKeeps(s: string, prefix: string, i: nat)
    requires i < |s| && s[i] !in prefix
    ensures s[i] in TrimPrefix(s, prefix)
  {
    if prefix <= s {
      assert forall k | 0 <= k < |prefix| :: prefix[k] == s[k];
      assert s[|prefix|..][i - |prefix|] == s[i];
    }
  }

  lemma BadCharStays(key: string, i: nat)
    requires i < |key| && Trimmed(key) && !KeyChar(key[i])
    ensures !ValidEnvKey(key) && !ValidEnvKey(CanonicalFileKey(key))
  {
    assert "" + key + "" == key;
    TrimSpaceIs("", key, "");
    TrimPrefixKeeps(key, "--", i);
    var bare := TrimPrefix(key, "--");
    var j :| 0 <= j < |bare| && bare[j] == key[i];
    var folded := ToUpper(Underscored(bare));
    assert folded[j] == UpperChar(Underscored(bare)[j]) == key[i];
    TrimPrefixKeeps(folded, "RSR_", j);
  }

  lemma DigitFirst(key: string)
    requires key != "" && Trimmed(key) && IsDigit(key[0])
    ensures !ValidEnvKey(key) && !ValidEnvKey(CanonicalFileKey(key))
  {
    assert "" + key + "" == key;
    TrimSpaceIs("", key, "");
    assert !("--" <= key);
    var k2 := ToUpper(Underscored(key));
    assert k2[0] == key[0] && !("RSR_" <= k2);
  }

  // ----- what a file means -----

  function Joined(lines: seq<string>): string {
    if lines == [] then "" else if |lines| == 1 then lines[0] else lines[0] + "\n" + Joined(lines[1..])
  }

  lemma JoinedCons(line: string, lines: seq<string>)
    requires lines != []
    ensures Joined([line] + lines) == line + "\n" + Joined(lines)
  {
    assert ([line] + lines)[1..] == lines;
  }

  lemma AroundNewline(text: string, i: nat)
    requires i < |text| && text[i] == '\n'
    ensures text == text[..i] + "\n" + text[i + 1..]
  {}

  /** The lines of a text are what lies between its newlines. */
  lemma {:induction false} LinesAreText(text: string)
    ensures forall line | line in SplitLines(text) :: '\n' !in line
    ensures Joined(SplitLines(text)) == text && SplitLines(text) != []
    decreases |text|
  {
    var i := Index(text, '\n');
    if i >= 0 {
      LinesAreText(text[i + 1..]);
      JoinedCons(text[..i], SplitLines(text[i + 1..]));
      AroundNewline(text, i);
    }
  }

  function Effects(lines: seq<string>): seq<Effect> {
    seq(|lines|, i requires 0 <= i < |lines| => LineEffect(lines[i]))
  }

  function LoadedOf(effects: seq<Effect>): Loaded {
    if effects == [] then Map(map[])
    else Loading(LoadedOf(effects[..|effects| - 1]), effects[|effects| - 1], |effects|)
  }

  lemma {:induction false} LoadedByEffects(lines: seq<string>)
    ensures LoadedLines(lines) == LoadedOf(Effects(lines))
  {
    if lines != [] {
      var n := |lines| - 1;
      LoadedByEffects(lines[..n]);
      assert Effects(lines)[..n] == Effects(lines[..n]);
    }
  }

  /** A file is refused exactly at its first bad line, by number, for what is wrong there. */
  lemma {:induction false} BadLineIff(effects: seq<Effect>, n: nat, e: ParseError)
    ensures LoadedOf(effects) == BadLine(n, e) <==>
            1 <= n <= |effects| && effects[n - 1] == Bad(e) && forall j | 0 <= j < n - 1 :: !effects[j].Bad?
  {
    if effects != [] {
      var less := effects[..|effects| - 1];
      BadLineIff(less, n, e);
      NoBadLine(less);
    }
  }

  lemma {:induction false} NoBadLine(effects: seq<Effect>)
    ensures LoadedOf(effects).Map? <==> forall j | 0 <= j < |effects| :: !effects[j].Bad?
  {
    if effects != [] { NoBadLine(effects[..|effects| - 1]); }
  }

  /** The last line that assigns the key assigns it this value. */
  ghost predicate LastAssigns(effects: seq<Effect>, k: string, v: string, i: nat) {
    i < |effects| && effects[i] == Assign(k, v)
    && forall j | i < j < |effects| :: !(effects[j].Assign? && effects[j].key == k)
  }

  /** A key has a value exactly when some line assigns it, and then that of the last such line. */
  lemma {:induction false} LastAssignmentWins(effects: seq<Effect>, k: string, v: string)
    requires LoadedOf(effects).Map?
    ensures k in LoadedOf(effects).m && LoadedOf(effects).m[k] == v <==>
            exists i :: LastAssigns(effects, k, v, i)
  {
    if effects != [] {
      var n := |effects| - 1;
      LastAssignmentWins(effects[..n], k, v);
      if effects[n].Assign? && effects[n].key == k {
        if effects[n].value == v { assert LastAssigns(effects, k, v, n); }
      } else {
        if i :| LastAssigns(effects[..n], k, v, i) { assert LastAssigns(effects, k, v, i); }
        if i :| LastAssigns(effects, k, v, i) { assert LastAssigns(effects[..n], k, v, i); }
      }
    }
  }

  /** So of a file: it is refused exactly at its first bad line, and otherwise the last assignment of a key wins. */
  lemma FileMeans(text: string, n: nat, e: ParseError, k: string, v: string)
    ensures var effects, r := Effects(SplitLines(text)), LoadedLines(SplitLines(text));
            && (r == BadLine(n, e) <==>
                  1 <= n <= |effects| && effects[n - 1] == Bad(e) && forall j | 0 <= j < n - 1 :: !effects[j].Bad?)
            && (r.Map? ==> (k in r.m && r.m[k] == v <==> exists i :: LastAssigns(effects, k, v, i)))
  {
    var effects := Effects(SplitLines(text));
    LoadedByEffects(SplitLines(text));
    BadLineIff(effects, n, e);
    if LoadedOf(effects).Map? { LastAssignmentWins(effects, k, v); }
  }
}
