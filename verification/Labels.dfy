/** Escaping a label value for the Prometheus text format. */
module Labels {

  function ReplaceAll(s: string, c: char, with: string): string {
    if s == "" then "" else (if s[0] == c then with else [s[0]]) + ReplaceAll(s[1..], c, with)
  }

  /** Three passes, each over the result of the one before. */
  function PromLabelValue(s: string): string {
    ReplaceAll(ReplaceAll(ReplaceAll(s, '\\', "\\\\"), '\n', "\\n"), '"', "\\\"")
  }

  /** What one character becomes. */
  function EscapeChar(c: char): string {
    if c == '\\' then "\\\\" else if c == '\n' then "\\n" else if c == '"' then "\\\"" else [c]
  }

  function EscapeOnce(s: string): string { if s == "" then "" else EscapeChar(s[0]) + EscapeOnce(s[1..]) }

  lemma {:induction false} ReplaceConcat(a: string, b: string, c: char, with: string)
    ensures ReplaceAll(a + b, c, with) == ReplaceAll(a, c, with) + ReplaceAll(b, c, with)
  {
    if a == "" {
      assert a + b == b;
    } else {
      ReplaceConcat(a[1..], b, c, with);
      assert (a + b)[1..] == a[1..] + b;
    }
  }

  lemma ReplaceShort(s: string, c: char, with: string)
    requires |s| <= 2 && c !in s
    ensures ReplaceAll(s, c, with) == s
  {
    if |s| == 2 {
      assert s[1..][1..] == "" && s == [s[0]] + [s[1]];
    }
  }

  lemma ReplaceOne(c: char, x: char, with: string)
    ensures ReplaceAll([c], x, with) == if c == x then with else [c]
  {
    assert [c][1..] == "" && ReplaceAll("", x, with) == "";
    assert with + "" == with && [c] + "" == [c];
  }

  lemma EscapeCharIsThreePasses(c: char)
    ensures PromLabelValue([c]) == EscapeChar(c)
  {
    ReplaceOne(c, '\\', "\\\\");
    ReplaceOne(c, '\n', "\\n");
    ReplaceOne(c, '"', "\\\"");
    ReplaceShort("\\\\", '\n', "\\n");
    ReplaceShort("\\\\", '"', "\\\"");
    ReplaceShort("\\n", '"', "\\\"");
  }

  /** The three passes do not disturb one another: together they are one pass over the characters. */
  lemma {:induction false} ThreePassesAreOne(s: string)
    ensures PromLabelValue(s) == EscapeOnce(s)
  {
    if s != "" {
      var head, tail := [s[0]], s[1..];
      assert s == head + tail;
      ReplaceConcat(head, tail, '\\', "\\\\");
      var h1, t1 := ReplaceAll(head, '\\', "\\\\"), ReplaceAll(tail, '\\', "\\\\");
      ReplaceConcat(h1, t1, '\n', "\\n");
      ReplaceConcat(ReplaceAll(h1, '\n', "\\n"), ReplaceAll(t1, '\n', "\\n"), '"', "\\\"");
      EscapeCharIsThreePasses(s[0]);
      ThreePassesAreOne(tail);
    }
  }

  datatype Quoted = Malformed | Quoted(value: string, rest: string)

  /** Reading a label value after its opening quote, as the text format defines it: a backslash escapes a
      backslash, a quote or an n, a quote ends the value, and a raw line feed is not allowed. */
  function ReadQuoted(t: string): Quoted {
    if t == "" || t[0] == '\n' then Malformed
    else if t[0] == '"' then Quoted("", t[1..])
    else if t[0] != '\\' then Prepend(t[0], ReadQuoted(t[1..]))
    else if |t| == 1 then Malformed
    else if t[1] == 'n' then Prepend('\n', ReadQuoted(t[2..]))
    else if t[1] == '\\' || t[1] == '"' then Prepend(t[1], ReadQuoted(t[2..]))
    else Malformed
  }

  function Prepend(c: char, q: Quoted): Quoted {
    match q
    case Malformed => Malformed
    case Quoted(v, rest) => Quoted([c] + v, rest)
  }

  /** A reader of the exposition gets back exactly the master name, whatever it holds, and goes on where
      the label ends. */
  lemma {:induction false} LabelRoundTrip(s: string, rest: string)
    ensures ReadQuoted(PromLabelValue(s) + "\"" + rest) == Quoted(s, rest)
  {
    ThreePassesAreOne(s);
    EscapedReadsBack(s, rest);
  }

  lemma ReadsEscaped(e: char, tail: string)
    ensures ReadQuoted(['\\', e] + tail)
         == if e == 'n' then Prepend('\n', ReadQuoted(tail))
            else if e == '\\' || e == '"' then Prepend(e, ReadQuoted(tail)) else Malformed
  {
    var t := ['\\', e] + tail;
    assert t[0] == '\\' && t[1] == e && t[2..] == tail;
  }

  lemma ReadsOne(c: char, tail: string, v: string, rest: string)
    requires ReadQuoted(tail) == Quoted(v, rest)
    ensures ReadQuoted(EscapeChar(c) + tail) == Quoted([c] + v, rest)
  {
    if c == '\n' {
      ReadsEscaped('n', tail);
    } else if c == '\\' || c == '"' {
      ReadsEscaped(c, tail);
    } else {
      assert ([c] + tail)[1..] == tail;
    }
  }

  lemma Shift(a: string, b: string, rest: string)
    ensures a + b + "\"" + rest == a + (b + "\"" + rest)
  {}

  lemma {:induction false} EscapedReadsBack(s: string, rest: string)
    ensures ReadQuoted(EscapeOnce(s) + "\"" + rest) == Quoted(s, rest)
  {
    if s == "" {
      assert "" + "\"" + rest == "\"" + rest;
      assert ("\"" + rest)[1..] == rest;
    } else {
      EscapedReadsBack(s[1..], rest);
      ReadsOne(s[0], EscapeOnce(s[1..]) + "\"" + rest, s[1..], rest);
      Shift(EscapeChar(s[0]), EscapeOnce(s[1..]), rest);
      assert s == [s[0]] + s[1..];
    }
  }
}
