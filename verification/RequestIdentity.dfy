/** The identity of an idempotent mutation: what the hashed text determines. */
module RequestIdentity {
  import opened Wrappers
  import opened Ordering

  // ---------------------------------------------------------------- JSON strings

  function HexDigit(n: nat): char
    requires n < 16
  {
    if n < 10 then ('0' as int + n) as char else ('a' as int + n - 10) as char
  }

  /** `format(n, "04x")`. */
  function Hex4(n: nat): (r: string)
    requires n < 0x1_0000
    ensures |r| == 4
  {
    [HexDigit(n / 0x1000), HexDigit(n / 0x100 % 16), HexDigit(n / 16 % 16), HexDigit(n % 16)]
  }

  const BACKSPACE: char := 8 as char
  const FORM_FEED: char := 12 as char

  /** One character as `json.dumps` writes it: printable ASCII as it is, the rest escaped,
      characters above the basic plane as two surrogates. */
  function Escape(c: char): string {
    if c == '"' then "\\\""
    else if c == '\\' then "\\\\"
    else if c == '\n' then "\\n"
    else if c == '\r' then "\\r"
    else if c == '\t' then "\\t"
    else if c == FORM_FEED then "\\f"
    else if c == BACKSPACE then "\\b"
    else if ' ' <= c <= '~' then [c]
    else
      var n := c as int;
      if n < 0x1_0000 then "\\u" + Hex4(n)
      else "\\u" + Hex4(0xD800 + (n - 0x1_0000) / 0x400) + "\\u" + Hex4(0xDC00 + (n - 0x1_0000) % 0x400)
  }

  function EscapeAll(s: string): string {
    if s == "" then "" else Escape(s[0]) + EscapeAll(s[1..])
  }

  function Quoted(s: string): string {
    "\"" + EscapeAll(s) + "\""
  }

  // ---------------------------------------------------------------- reading it back

  function HexValue(c: char): Option<nat> {
    if '0' <= c <= '9' then Some(c as int - '0' as int)
    else if 'a' <= c <= 'f' then Some(c as int - 'a' as int + 10)
    else None
  }

  function ReadHex4(s: string): Option<nat>
    requires |s| == 4
  {
    var a, b, c, d := HexValue(s[0]), HexValue(s[1]), HexValue(s[2]), HexValue(s[3]);
    if a.None? || b.None? || c.None? || d.None? then None
    else Some(a.value * 0x1000 + b.value * 0x100 + c.value * 16 + d.value)
  }

  lemma {:induction false} HexValueOf(d: nat)
    requires d < 16
    ensures HexValue(HexDigit(d)) == Some(d)
  {}

  lemma {:induction false} DigitsOf(n: nat)
    ensures n == n / 0x1000 * 0x1000 + n / 0x100 % 16 * 0x100 + n / 16 % 16 * 16 + n % 16
  {
    var a, b, c := n / 0x1000, n / 0x100, n / 16;
    assert c / 16 == b && b / 16 == a;
  }

  lemma {:induction false} ReadHexInvertsHex(n: nat)
    requires n < 0x1_0000
    ensures ReadHex4(Hex4(n)) == Some(n)
  {
    HexValueOf(n / 0x1000);
    HexValueOf(n / 0x100 % 16);
    HexValueOf(n / 16 % 16);
    HexValueOf(n % 16);
    DigitsOf(n);
  }

  /** The two-character escapes of section 7 of RFC 8259. */
  function ReadShort(c: char): Option<char> {
    if c == '"' || c == '\\' then Some(c)
    else if c == 'n' then Some('\n')
    else if c == 'r' then Some('\r')
    else if c == 't' then Some('\t')
    else if c == 'f' then Some(FORM_FEED)
    else if c == 'b' then Some(BACKSPACE)
    else None
  }

  /** A character after `\u`: four hex digits, or two surrogates. */
  function ReadUnicode(s: string): Option<(char, string)> {
    if |s| < 4 || ReadHex4(s[..4]).None? then None
    else
      var n := ReadHex4(s[..4]).value;
      if n < 0xD800 || 0xE000 <= n < 0x1_0000 then Some((n as char, s[4..]))
      else if 0xD800 <= n < 0xDC00 && |s| >= 10 && s[4] == '\\' && s[5] == 'u' && ReadHex4(s[6..10]).Some? &&
           0xDC00 <= ReadHex4(s[6..10]).value < 0xE000 then
        Some(((0x1_0000 + (n - 0xD800) * 0x400 + (ReadHex4(s[6..10]).value - 0xDC00)) as char, s[10..]))
      else None
  }

  /** One character of a string body, and what follows it. */
  function ReadChar(s: string): (r: Option<(char, string)>)
    ensures r.Some? ==> |r.value.1| < |s|
  {
    if s == "" || s[0] == '"' then None
    else if s[0] != '\\' then Some((s[0], s[1..]))
    else if |s| < 2 then None
    else if s[1] == 'u' then
      var u := ReadUnicode(s[2..]);
      if u.Some? && |u.value.1| < |s| then u else None
    else if ReadShort(s[1]).Some? then Some((ReadShort(s[1]).value, s[2..]))
    else None
  }

  lemma {:induction false} AfterTwo(two: string, rest: string)
    requires |two| == 2
    ensures (two + rest)[2..] == rest && (two + rest)[0] == two[0] && (two + rest)[1] == two[1]
  {}

  lemma {:induction false} ReadInvertsBasic(c: char, rest: string)
    requires c as int < 0x1_0000 && |Escape(c)| == 6
    ensures ReadChar(Escape(c) + rest) == Some((c, rest))
  {
    var n := c as int;
    ReadHexInvertsHex(n);
    AfterTwo("\\u", Hex4(n) + rest);
    assert Escape(c) + rest == "\\u" + (Hex4(n) + rest);
    assert (Hex4(n) + rest)[..4] == Hex4(n) && (Hex4(n) + rest)[4..] == rest;
  }

  lemma {:induction false} SurrogateParts(h: string, l: string, rest: string)
    requires |h| == 4 && |l| == 4
    ensures var after := h + "\\u" + l + rest;
            |after| >= 10 && after[..4] == h && after[6..10] == l && after[10..] == rest && after[4] == '\\' &&
            after[5] == 'u'
  {}

  lemma {:induction false} ReadTwoSurrogates(high: nat, low: nat, rest: string)
    requires 0xD800 <= high < 0xDC00 <= low < 0xE000
    ensures ReadUnicode(Hex4(high) + "\\u" + Hex4(low) + rest) ==
            Some(((0x1_0000 + (high - 0xD800) * 0x400 + (low - 0xDC00)) as char, rest))
  {
    ReadHexInvertsHex(high);
    ReadHexInvertsHex(low);
    SurrogateParts(Hex4(high), Hex4(low), rest);
  }

  lemma {:induction false} SurrogateShape(h: string, l: string, rest: string)
    ensures "\\u" + h + "\\u" + l + rest == "\\u" + (h + "\\u" + l + rest)
  {}

  lemma {:induction false} SurrogatesNamed(n: nat) returns (high: nat, low: nat)
    requires 0x1_0000 <= n < 0x11_0000
    ensures 0xD800 <= high < 0xDC00 <= low < 0xE000 && 0x1_0000 + (high - 0xD800) * 0x400 + (low - 0xDC00) == n
    ensures high == 0xD800 + (n - 0x1_0000) / 0x400 && low == 0xDC00 + (n - 0x1_0000) % 0x400
  {
    high, low := 0xD800 + (n - 0x1_0000) / 0x400, 0xDC00 + (n - 0x1_0000) % 0x400;
  }

  lemma {:induction false} EscapeSurrogates(c: char, high: nat, low: nat)
    requires c as int >= 0x1_0000 && high < 0x1_0000 && low < 0x1_0000
    requires high == 0xD800 + (c as int - 0x1_0000) / 0x400 && low == 0xDC00 + (c as int - 0x1_0000) % 0x400
    ensures Escape(c) == "\\u" + Hex4(high) + "\\u" + Hex4(low)
  {}

  lemma {:induction false} ReadInvertsSurrogates(c: char, rest: string)
    requires c as int >= 0x1_0000
    ensures ReadChar(Escape(c) + rest) == Some((c, rest))
  {
    var high, low := SurrogatesNamed(c as int);
    var h, l := Hex4(high), Hex4(low);
    ReadTwoSurrogates(high, low, rest);
    SurrogateShape(h, l, rest);
    AfterTwo("\\u", h + "\\u" + l + rest);
    EscapeSurrogates(c, high, low);
  }

  /** Reading what was written gives the character back and leaves what follows. */
  lemma {:induction false} ReadInvertsEscape(c: char, rest: string)
    ensures ReadChar(Escape(c) + rest) == Some((c, rest))
  {
    var s := Escape(c) + rest;
    if |Escape(c)| == 1 {
      assert s[1..] == rest;
    } else if |Escape(c)| == 2 {
      AfterTwo(Escape(c), rest);
    } else if c as int < 0x1_0000 {
      ReadInvertsBasic(c, rest);
    } else {
      ReadInvertsSurrogates(c, rest);
    }
  }

  /** A string body up to its closing quote, and what follows that. */
  function ReadBody(s: string): Option<(string, string)>
    decreases |s|
  {
    if s == "" then None
    else if s[0] == '"' then Some(("", s[1..]))
    else
      var c := ReadChar(s);
      if c.None? then None
      else
        var others := ReadBody(c.value.1);
        if others.None? then None else Some(([c.value.0] + others.value.0, others.value.1))
  }

  /** No escape starts with the closing quote. */
  lemma {:induction false} EscapeStarts(c: char)
    ensures Escape(c) != "" && Escape(c)[0] != '"'
  {}

  lemma {:induction false} ReadInvertsQuoted(s: string, rest: string)
    ensures ReadBody(EscapeAll(s) + "\"" + rest) == Some((s, rest))
  {
    var whole := EscapeAll(s) + "\"" + rest;
    if s == "" {
      assert whole == "\"" + rest;
    } else {
      var tail := EscapeAll(s[1..]) + "\"" + rest;
      assert whole == Escape(s[0]) + tail;
      ReadInvertsEscape(s[0], tail);
      ReadInvertsQuoted(s[1..], rest);
      EscapeStarts(s[0]);
      assert whole[0] == Escape(s[0])[0];
      assert s == [s[0]] + s[1..];
    }
  }

  // ---------------------------------------------------------------- path parameters

  type Param = (string, string)

  function PairText(p: Param): string {
    "[" + Quoted(p.0) + "," + Quoted(p.1) + "]"
  }

  /** The pairs separated by commas, and the closing bracket. */
  function PairsText(ps: seq<Param>): string {
    if ps == [] then "]" else PairText(ps[0]) + (if |ps| > 1 then "," + PairsText(ps[1..]) else PairsText(ps[1..]))
  }

  /** `json.dumps(sorted(params.items()), separators=(",", ":"))`. */
  function ParamsText(params: seq<Param>): string {
    "[" + PairsText(Sort(params, PairLeq))
  }

  function ReadPair(s: string): Option<(Param, string)> {
    if |s| < 2 || s[0] != '[' || s[1] != '"' then None
    else
      var k := ReadBody(s[2..]);
      if k.None? || |k.value.1| < 2 || k.value.1[0] != ',' || k.value.1[1] != '"' then None
      else
        var v := ReadBody(k.value.1[2..]);
        if v.None? || |v.value.1| < 1 || v.value.1[0] != ']' then None
        else Some(((k.value.0, v.value.0), v.value.1[1..]))
  }

  lemma {:induction false} PairShape(x: string, y: string, rest: string)
    ensures "[" + ("\"" + x + "\"") + "," + ("\"" + y + "\"") + "]" + rest == "[\"" +
            (x + "\"" + (",\"" + (y + "\"" + ("]" + rest))))
  {}

  lemma {:induction false} ReadInvertsPair(p: Param, rest: string)
    ensures ReadPair(PairText(p) + rest) == Some((p, rest))
  {
    var close := "]" + rest;
    var value := EscapeAll(p.1) + "\"" + close;
    var key := EscapeAll(p.0) + "\"" + (",\"" + value);
    PairShape(EscapeAll(p.0), EscapeAll(p.1), rest);
    assert PairText(p) + rest == "[\"" + key;
    AfterTwo("[\"", key);
    ReadInvertsQuoted(p.0, ",\"" + value);
    AfterTwo(",\"", value);
    ReadInvertsQuoted(p.1, close);
    assert close[1..] == rest;
  }

  function SkipComma(s: string): string {
    if s != "" && s[0] == ',' then s[1..] else s
  }

  /** `count` bounds the number of pairs read. */
  function ReadPairs(s: string, count: nat): Option<(seq<Param>, string)>
    decreases count
  {
    if s != "" && s[0] == ']' then Some(([], s[1..]))
    else if count == 0 then None
    else
      var p := ReadPair(s);
      if p.None? then None
      else
        var more := ReadPairs(SkipComma(p.value.1), count - 1);
        if more.None? then None else Some(([p.value.0] + more.value.0, more.value.1))
  }

  lemma {:induction false} Regroup(x: string, y: string, z: string)
    ensures (x + y) + z == x + (y + z)
  {}

  /** What follows a pair, with and without the comma. */
  lemma {:induction false} AfterPair(ps: seq<Param>, rest: string, s: string)
      returns (tail: string, p: Param, others: seq<Param>)
    requires ps != [] && s == PairsText(ps) + rest
    ensures ps == [p] + others && s == PairText(p) + tail && SkipComma(tail) == PairsText(others) + rest
  {
    p, others := ps[0], ps[1..];
    var text := PairsText(others);
    var body := if |ps| > 1 then "," + text else text;
    assert PairsText(ps) == PairText(p) + body;
    Regroup(PairText(p), body, rest);
    tail := body + rest;
    if |ps| > 1 {
      Regroup(",", text, rest);
      assert ("," + (text + rest))[1..] == text + rest;
    } else {
      assert text == "]";
    }
  }

  lemma {:induction false} ReadPairsStep(s: string, p: Param, tail: string, ps: seq<Param>, rest: string, count: nat)
    requires count > 0 && s == PairText(p) + tail
    requires ReadPairs(SkipComma(tail), count - 1) == Some((ps, rest))
    ensures ReadPairs(s, count) == Some(([p] + ps, rest))
  {
    ReadInvertsPair(p, tail);
    assert s[0] == PairText(p)[0] == '[';
  }

  lemma {:induction false} ReadNoPairs(rest: string, count: nat)
    ensures PairsText([]) == "]" && ReadPairs("]" + rest, count) == Some(([], rest))
  {
    assert ("]" + rest)[1..] == rest;
  }

  lemma {:induction false} ReadInvertsPairs(ps: seq<Param>, rest: string, count: nat, s: string)
    requires count >= |ps| && s == PairsText(ps) + rest
    ensures ReadPairs(s, count) == Some((ps, rest))
  {
    if ps == [] {
      ReadNoPairs(rest, count);
    } else {
      var tail, p, others := AfterPair(ps, rest, s);
      ReadInvertsPairs(others, rest, count - 1, SkipComma(tail));
      ReadPairsStep(s, p, tail, others, rest, count);
    }
  }

  lemma {:induction false} SameAfterFirst(x: string, a: string, b: string)
    requires x + a == x + b
    ensures a == b
  {
    assert a == (x + a)[|x|..] && b == (x + b)[|x|..];
  }

  lemma {:induction false} PairsSelfDelimiting(a: seq<Param>, b: seq<Param>, u: string, v: string)
    requires PairsText(a) + u == PairsText(b) + v
    ensures a == b && u == v
  {
    var s, count := PairsText(a) + u, |a| + |b|;
    ReadInvertsPairs(a, u, count, s);
    ReadInvertsPairs(b, v, count, s);
    assert Some((a, u)) == ReadPairs(s, count) == Some((b, v));
  }

  /** The parameter array tells where it ends and what it held. */
  lemma {:induction false} ParamsSelfDelimiting(a: seq<Param>, b: seq<Param>, u: string, v: string)
    requires ParamsText(a) + u == ParamsText(b) + v
    ensures multiset(a) == multiset(b) && u == v
  {
    var sa, sb := Sort(a, PairLeq), Sort(b, PairLeq);
    var ta, tb := PairsText(sa), PairsText(sb);
    Regroup("[", ta, u);
    Regroup("[", tb, v);
    SameAfterFirst("[", ta + u, tb + v);
    PairsSelfDelimiting(sa, sb, u, v);
    assert multiset(sa) == multiset(a) && multiset(sb) == multiset(b);
  }

  // ---------------------------------------------------------------- the identity

  datatype Mutation = Mutation(verb: string, routeKey: string, params: seq<Param>, body: string)

  /** The text that is hashed; `params` lists the path parameters in any order. */
  function Material(m: Mutation): string {
    m.verb + "|" + m.routeKey + "|" + ParamsText(m.params) + "|" + m.body
  }

  function BarIndex(s: string): nat {
    if s == "" || s[0] == '|' then 0 else 1 + BarIndex(s[1..])
  }

  lemma {:induction false} BarAfter(a: string, u: string)
    requires '|' !in a
    ensures BarIndex(a + "|" + u) == |a|
  {
    if a == "" {
      assert a + "|" + u == "|" + u;
    } else {
      assert a[0] in a;
      BarAfter(a[1..], u);
      assert (a + "|" + u)[1..] == a[1..] + "|" + u;
    }
  }

  /** The first separator splits a text in one way only. */
  lemma {:induction false} FirstBar(a: string, b: string, u: string, v: string)
    requires '|' !in a && '|' !in b && a + "|" + u == b + "|" + v
    ensures a == b && u == v
  {
    BarAfter(a, u);
    BarAfter(b, v);
    var s := a + "|" + u;
    assert a == s[..|a|] && b == s[..|a|];
    assert u == s[|a| + 1..] && v == s[|a| + 1..];
  }

  /** Two mutations have the same identity text exactly when they have the same method,
      route key, path parameters (in any order) and body, as long as neither the methods
      nor the route keys contain the separator. */
  lemma {:induction false} IdentityExact(a: Mutation, b: Mutation)
    requires '|' !in a.verb && '|' !in b.verb && '|' !in a.routeKey && '|' !in b.routeKey
    ensures Material(a) == Material(b) <==>
            a.verb == b.verb && a.routeKey == b.routeKey && multiset(a.params) == multiset(b.params) && a.body == b.body
  {
    if Material(a) == Material(b) { EqualMaterial(a, b); }
    if multiset(a.params) == multiset(b.params) {
      PairLeqIsTotalOrder();
      SortOfPermutation(a.params, b.params, PairLeq);
    }
  }

  lemma {:induction false} EqualMaterial(a: Mutation, b: Mutation)
    requires '|' !in a.verb && '|' !in b.verb && '|' !in a.routeKey && '|' !in b.routeKey && Material(a) == Material(b)
    ensures a.verb == b.verb && a.routeKey == b.routeKey && multiset(a.params) == multiset(b.params) && a.body == b.body
  {
    var u, v := Tail(a), Tail(b);
    Nested(a.verb, a.routeKey, ParamsText(a.params), a.body);
    Nested(b.verb, b.routeKey, ParamsText(b.params), b.body);
    FirstBar(a.verb, b.verb, a.routeKey + "|" + u, b.routeKey + "|" + v);
    FirstBar(a.routeKey, b.routeKey, u, v);
    ParamsSelfDelimiting(a.params, b.params, "|" + a.body, "|" + b.body);
    assert ("|" + a.body)[1..] == a.body && ("|" + b.body)[1..] == b.body;
  }

  function Tail(m: Mutation): string {
    ParamsText(m.params) + ("|" + m.body)
  }

  lemma {:induction false} Nested(x: string, y: string, z: string, w: string)
    ensures x + "|" + y + "|" + z + "|" + w == x + "|" + (y + "|" + (z + ("|" + w)))
  {}

  /** With the separator in a method or a route key two different mutations collide. */
  lemma {:induction false} SeparatorCollides(x: string, y: string, z: string, params: seq<Param>, body: string)
    ensures var a, b := Mutation(x, y + "|" + z, params, body), Mutation(x + "|" + y, z, params, body);
            Material(a) == Material(b) && a.verb != b.verb
  {
    var p := ParamsText(params);
    assert x + "|" + (y + "|" + z) + "|" + p + "|" + body == (x + "|" + y) + "|" + z + "|" + p + "|" + body;
    assert |x| < |x + "|" + y|;
  }
}
