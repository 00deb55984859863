/** The JSON text the champion store writes into its `tags` column: Go's
    encoding/json rendering of a list of strings (no spaces, HTML-sensitive
    characters escaped), and a decoder that reads such a list back. */
module Json {
  import opened Wrappers

  const HexDigits := "0123456789abcdef"

  predicate IsHex(c: char)
  {
    ('0' <= c <= '9') || ('a' <= c <= 'f') || ('A' <= c <= 'F')
  }

  function HexValue(c: char): (v: nat)
    requires IsHex(c)
    ensures v < 16
  {
    if '0' <= c <= '9' then (c as int) - ('0' as int)
    else if 'a' <= c <= 'f' then (c as int) - ('a' as int) + 10
    else (c as int) - ('A' as int) + 10
  }

  lemma HexDigitValue(d: nat)
    requires d < 16
    ensures IsHex(HexDigits[d]) && HexValue(HexDigits[d]) == d
  {
  }

  /** Four lower-case hex digits of a code unit, as in `\u003c`. */
  function Hex4(v: nat): (h: string)
    requires v < 0x1_0000
    ensures |h| == 4
  {
    var v1 := v / 16;
    var v2 := v1 / 16;
    [HexDigits[v2 / 16], HexDigits[v2 % 16], HexDigits[v1 % 16], HexDigits[v % 16]]
  }

  function Hex4Value(h: string): nat
    requires |h| == 4 && IsHex(h[0]) && IsHex(h[1]) && IsHex(h[2]) && IsHex(h[3])
  {
    ((HexValue(h[0]) * 16 + HexValue(h[1])) * 16 + HexValue(h[2])) * 16 + HexValue(h[3])
  }

  lemma Hex4RoundTrip(v: nat)
    requires v < 0x1_0000
    ensures var h := Hex4(v); IsHex(h[0]) && IsHex(h[1]) && IsHex(h[2]) && IsHex(h[3]) && Hex4Value(h) == v
  {
    var v1 := v / 16;
    var v2 := v1 / 16;
    HexDigitValue(v2 / 16);
    HexDigitValue(v2 % 16);
    HexDigitValue(v1 % 16);
    HexDigitValue(v % 16);
    assert v2 == (v2 / 16) * 16 + v2 % 16;
    assert v1 == v2 * 16 + v1 % 16;
    assert v == v1 * 16 + v % 16;
  }

  /** Characters encoding/json writes as `\u` escapes: control characters
      other than the five with short escapes, the HTML-sensitive `<`, `>`
      and `&`, and the line and paragraph separators. */
  predicate NeedsUnicodeEscape(c: char)
  {
    (c < ' ' && c !in {'\U{8}', '\U{C}', '\n', '\r', '\t'})
    || c == '<' || c == '>' || c == '&'
    || c == '\U{2028}' || c == '\U{2029}'
  }

  /** How encoding/json writes one character inside a string literal. */
  function EscapeChar(c: char): string
  {
    if c == '"' then "\\\""
    else if c == '\\' then "\\\\"
    else if c == '\U{8}' then "\\b"
    else if c == '\U{C}' then "\\f"
    else if c == '\n' then "\\n"
    else if c == '\r' then "\\r"
    else if c == '\t' then "\\t"
    else if NeedsUnicodeEscape(c) then "\\u" + Hex4(c as int)
    else [c]
  }

  function EscapeString(s: string): string
  {
    if |s| == 0 then "" else EscapeChar(s[0]) + EscapeString(s[1..])
  }

  /** Characters encoding/json writes as themselves. */
  predicate Plain(c: char)
  {
    ' ' <= c && c != '"' && c != '\\' && !NeedsUnicodeEscape(c)
  }

  /** A string of plain characters is written as it is. */
  lemma {:induction false} EscapeStringPlain(s: string)
    requires forall i :: 0 <= i < |s| ==> Plain(s[i])
    ensures EscapeString(s) == s
  {
    if |s| > 0 {
      EscapeStringPlain(s[1..]);
      assert s == [s[0]] + s[1..];
    }
  }

  function Quote(s: string): string
  {
    "\"" + EscapeString(s) + "\""
  }

  function JoinQuoted(ss: seq<string>): string
  {
    if |ss| == 0 then ""
    else if |ss| == 1 then Quote(ss[0])
    else Quote(ss[0]) + "," + JoinQuoted(ss[1..])
  }

  /** json.Marshal of a (non-nil) []string. */
  function EncodeStringArray(ss: seq<string>): string
  {
    "[" + JoinQuoted(ss) + "]"
  }

  /** The character a two-character escape `\e` stands for. */
  function Unescape(e: char): Option<char>
  {
    match e
    case '"' => Some('"')
    case '\\' => Some('\\')
    case '/' => Some('/')
    case 'b' => Some('\U{8}')
    case 'f' => Some('\U{C}')
    case 'n' => Some('\n')
    case 'r' => Some('\r')
    case 't' => Some('\t')
    case _ => None
  }

  function Prepend(c: char, r: Option<(string, string)>): Option<(string, string)>
  {
    match r
    case None => None
    case Some((body, tail)) => Some(([c] + body, tail))
  }

  /** Reads the rest of a string literal whose opening quote has been
      consumed: the decoded text and what follows the closing quote. */
  function ParseStringBody(s: string): (r: Option<(string, string)>)
    ensures r.Some? ==> |r.value.1| < |s|
    decreases |s|
  {
    if |s| == 0 then None
    else if s[0] == '"' then Some(("", s[1..]))
    else if s[0] == '\\' then
      if |s| < 2 then None
      else if s[1] == 'u' then
        if |s| < 6 || !(IsHex(s[2]) && IsHex(s[3]) && IsHex(s[4]) && IsHex(s[5])) then None
        else
          var v := Hex4Value(s[2..6]);
          if 0xD800 <= v < 0xE000 then None
          else Prepend(v as char, ParseStringBody(s[6..]))
      else
        match Unescape(s[1])
        case None => None
        case Some(c) => Prepend(c, ParseStringBody(s[2..]))
    else if s[0] < ' ' then None
    else Prepend(s[0], ParseStringBody(s[1..]))
  }

  /** Reads `"..."` elements separated by ',' up to the closing ']'. */
  function ParseElements(s: string): Option<seq<string>>
    decreases |s|
  {
    if |s| == 0 || s[0] != '"' then None
    else
      match ParseStringBody(s[1..])
      case None => None
      case Some((x, rest)) =>
        if rest == "]" then Some([x])
        else if |rest| > 0 && rest[0] == ',' then
          match ParseElements(rest[1..])
          case None => None
          case Some(xs) => Some([x] + xs)
        else None
  }

  /** Reads a JSON array of strings written without whitespace. */
  function DecodeStringArray(s: string): Option<seq<string>>
  {
    if s == "[]" then Some([])
    else if |s| < 2 || s[0] != '[' then None
    else ParseElements(s[1..])
  }

  lemma EscapeCharRoundTrip(c: char, t: string)
    ensures ParseStringBody(EscapeChar(c) + t) == Prepend(c, ParseStringBody(t))
  {
    var s := EscapeChar(c) + t;
    if c == '"' || c == '\\' || c == '\U{8}' || c == '\U{C}' || c == '\n' || c == '\r' || c == '\t' {
      assert s[2..] == t;
    } else if NeedsUnicodeEscape(c) {
      var v := c as int;
      Hex4RoundTrip(v);
      assert s[2..6] == Hex4(v);
      assert s[6..] == t;
      assert (v as char) == c;
    } else {
      assert s[1..] == t;
    }
  }

  lemma {:induction false} EscapeStringRoundTrip(str: string, rest: string)
    ensures ParseStringBody(EscapeString(str) + "\"" + rest) == Some((str, rest))
    decreases |str|
  {
    if |str| == 0 {
      assert EscapeString(str) + "\"" + rest == "\"" + rest;
      assert ("\"" + rest)[1..] == rest;
    } else {
      var t := EscapeString(str[1..]) + "\"" + rest;
      assert EscapeString(str) + "\"" + rest == EscapeChar(str[0]) + t;
      EscapeCharRoundTrip(str[0], t);
      EscapeStringRoundTrip(str[1..], rest);
      assert [str[0]] + str[1..] == str;
    }
  }

  /** A quoted element reads back as its text, followed by what comes
      after it. */
  lemma FirstElementRoundTrip(x: string, rest: string)
    ensures var s := Quote(x) + rest; |s| > 0 && s[0] == '"' && ParseStringBody(s[1..]) == Some((x, rest))
  {
    var body := EscapeString(x) + "\"" + rest;
    QuoteThen(EscapeString(x), rest);
    AfterQuote(body);
    EscapeStringRoundTrip(x, rest);
  }

  lemma QuoteThen(e: string, rest: string)
    ensures "\"" + e + "\"" + rest == "\"" + (e + "\"" + rest)
  {
  }

  lemma AfterQuote(body: string)
    ensures var s := "\"" + body; |s| > 0 && s[0] == '"' && s[1..] == body
  {
  }

  lemma {:induction false} ElementsRoundTrip(ss: seq<string>)
    requires |ss| > 0
    ensures ParseElements(JoinQuoted(ss) + "]") == Some(ss)
    decreases |ss|
  {
    if |ss| == 1 {
      FirstElementRoundTrip(ss[0], "]");
      assert ss == [ss[0]];
    } else {
      var more := JoinQuoted(ss[1..]) + "]";
      assert JoinQuoted(ss) + "]" == Quote(ss[0]) + ("," + more);
      FirstElementRoundTrip(ss[0], "," + more);
      assert ("," + more)[1..] == more;
      ElementsRoundTrip(ss[1..]);
      assert [ss[0]] + ss[1..] == ss;
    }
  }

  /** Decoding the stored text gives the tags back, same strings in the same
      order. */
  lemma EncodeStringArrayRoundTrip(ss: seq<string>)
    ensures DecodeStringArray(EncodeStringArray(ss)) == Some(ss)
  {
    var s := EncodeStringArray(ss);
    if |ss| > 0 {
      ElementsRoundTrip(ss);
      assert s[1..] == JoinQuoted(ss) + "]";
      assert s != "[]" by {
        assert s[1] == '"';
      }
    }
  }

  /** Distinct tag lists are stored as distinct texts. */
  lemma EncodeStringArrayInjective(a: seq<string>, b: seq<string>)
    requires EncodeStringArray(a) == EncodeStringArray(b)
    ensures a == b
  {
    EncodeStringArrayRoundTrip(a);
    EncodeStringArrayRoundTrip(b);
  }
}
