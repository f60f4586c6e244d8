/** `JSON.stringify` of an array of strings, the only payload shape the core serialises itself
    (the subscription request). Other payloads are serialised by callers the model does not see. */
module Json {
  import opened Text

  function HexDigit(d: nat): (c: char)
    requires d < 16
  {
    if d < 10 then ('0' as int + d) as char else ('a' as int + d - 10) as char
  }

  function HexValue(c: char): (d: int)
  {
    if '0' <= c <= '9' then c as int - '0' as int
    else if 'a' <= c <= 'f' then c as int - 'a' as int + 10
    else -1
  }

  /** How `JSON.stringify` writes one character inside a string literal. */
  function EscapeChar(c: char): (r: string)
    ensures |r| >= 1
  {
    if c == '"' then "\\\""
    else if c == '\\' then "\\\\"
    else if c == '\U{8}' then "\\b"
    else if c == '\t' then "\\t"
    else if c == '\n' then "\\n"
    else if c == '\U{C}' then "\\f"
    else if c == '\r' then "\\r"
    else if c < ' ' then "\\u00" + [HexDigit(c as int / 16), HexDigit(c as int % 16)]
    else [c]
  }

  function Escape(s: string): (r: string)
  {
    if s == [] then "" else EscapeChar(s[0]) + Escape(s[1..])
  }

  /** `JSON.stringify(s)` for a string `s`. */
  function Quote(s: string): (r: string)
  {
    "\"" + Escape(s) + "\""
  }

  function QuoteAll(xs: seq<string>): (r: seq<string>)
    ensures |r| == |xs|
    ensures forall i :: 0 <= i < |xs| ==> r[i] == Quote(xs[i])
  {
    if xs == [] then [] else [Quote(xs[0])] + QuoteAll(xs[1..])
  }

  /** `JSON.stringify(xs)` for an array of strings. */
  function StringArray(xs: seq<string>): (r: string)
  {
    "[" + Join(QuoteAll(xs), ",") + "]"
  }

  /** The reading side of `Escape`: the characters an escaped string literal body denotes. */
  function Unescape(e: string): (r: string)
  {
    if e == [] then ""
    else if e[0] != '\\' || |e| < 2 then [e[0]] + Unescape(e[1..])
    else if e[1] == 'u' && |e| >= 6 then
      var v := ((HexValue(e[2]) * 16 + HexValue(e[3])) * 16 + HexValue(e[4])) * 16 + HexValue(e[5]);
      [if 0 <= v < 0xD800 || 0xE000 <= v < 0x11_0000 then v as char else '\U{FFFD}'] + Unescape(e[6..])
    else
      var c := if e[1] == 'b' then '\U{8}' else if e[1] == 't' then '\t' else if e[1] == 'n' then '\n'
               else if e[1] == 'f' then '\U{C}' else if e[1] == 'r' then '\r' else e[1];
      [c] + Unescape(e[2..])
  }

  lemma UnescapeChar(c: char, rest: string)
    ensures Unescape(EscapeChar(c) + rest) == [c] + Unescape(rest)
  {
    var e := EscapeChar(c) + rest;
    if ' ' <= c && c != '"' && c != '\\' {
      assert e[1..] == rest;
    } else if c < ' ' && c != '\U{8}' && c != '\t' && c != '\n' && c != '\U{C}' && c != '\r' {
      assert e[6..] == rest;
    } else {
      assert e[2..] == rest;
    }
  }

  /** Reading an escaped string literal body gives the original string back. */
  lemma {:induction false} EscapeRoundTrip(s: string)
    ensures Unescape(Escape(s)) == s
  {
    if s != [] {
      EscapeRoundTrip(s[1..]);
      UnescapeChar(s[0], Escape(s[1..]));
    }
  }

  lemma {:induction false} EscapeAscii(s: string)
    requires IsAscii(s)
    ensures IsAscii(Escape(s))
  {
    if s != [] {
      assert s[0] in s;
      forall i | 0 <= i < |s| - 1 ensures s[1..][i] as int < 0x80 { assert s[1..][i] == s[i + 1]; }
      EscapeAscii(s[1..]);
      var a, b := EscapeChar(s[0]), Escape(s[1..]);
      forall i | 0 <= i < |a + b| ensures (a + b)[i] as int < 0x80 {
        if i >= |a| { assert (a + b)[i] == b[i - |a|]; }
      }
    }
  }

  lemma {:induction false} JoinAscii(parts: seq<string>, sep: string)
    requires forall i :: 0 <= i < |parts| ==> IsAscii(parts[i])
    requires IsAscii(sep)
    ensures IsAscii(Join(parts, sep))
  {
    if |parts| > 1 {
      JoinAscii(parts[1..], sep);
      var a, b, c := parts[0], sep, Join(parts[1..], sep);
      assert parts[0] + sep + c == a + (b + c);
      forall i | 0 <= i < |a + (b + c)| ensures (a + (b + c))[i] as int < 0x80 {
        if i >= |a| {
          assert (a + (b + c))[i] == (b + c)[i - |a|];
          if i - |a| >= |b| { assert (b + c)[i - |a|] == c[i - |a| - |b|]; }
        }
      }
    }
  }

  /** The JSON text of an array of ASCII strings is ASCII, so its length is its byte count. */
  lemma StringArrayAscii(xs: seq<string>)
    requires forall i :: 0 <= i < |xs| ==> IsAscii(xs[i])
    ensures IsAscii(StringArray(xs))
  {
    var quoted := QuoteAll(xs);
    forall i | 0 <= i < |quoted| ensures IsAscii(quoted[i]) {
      EscapeAscii(xs[i]);
      var body := Escape(xs[i]);
      forall k | 0 <= k < |Quote(xs[i])| ensures Quote(xs[i])[k] as int < 0x80 {
        if 0 < k < |body| + 1 { assert Quote(xs[i])[k] == body[k - 1]; }
      }
    }
    JoinAscii(quoted, ",");
    var j := Join(quoted, ",");
    forall k | 0 <= k < |StringArray(xs)| ensures StringArray(xs)[k] as int < 0x80 {
      if 0 < k < |j| + 1 { assert StringArray(xs)[k] == j[k - 1]; }
    }
  }

  /** A string with no quote, no backslash and no control character is written as it is. */
  lemma {:induction false} EscapePlain(s: string)
    requires forall i :: 0 <= i < |s| ==> ' ' <= s[i] && s[i] != '"' && s[i] != '\\'
    ensures Escape(s) == s
  {
    if s != [] {
      EscapePlain(s[1..]);
      assert s == [s[0]] + s[1..];
    }
  }

  /** The subscription payload of the connection handshake. */
  lemma WindowSubscriptionText()
    ensures StringArray(["window"]) == "[\"window\"]"
    ensures |StringArray(["window"])| == 10
  {
    EscapePlain("window");
    var q := Quote("window");
    assert q == "\"window\"";
    assert QuoteAll(["window"]) == [q];
    assert Join([q], ",") == q;
  }
}
