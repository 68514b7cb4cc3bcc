/** Attribute text: `xml_escape` on the way out, attribute-value normalisation (section 3.3.3 of
    XML 1.0, Fifth Edition) on the way in, and the JSON reading of the text in between. */
module XmlText {
  import opened Wrappers
  import opened Json
  import Numerals

  /** The reference `xml_escape` writes in the place of a character, without `&` and `;`. */
  function ReferenceFor(c: char): Option<string> {
    match c
    case '&' => Some("amp")
    case '<' => Some("lt")
    case '>' => Some("gt")
    case '\"' => Some("quot")
    case '\'' => Some("apos")
    case '\n' => Some("#10")
    case '\r' => Some("#13")
    case '\t' => Some("#9")
    case _ => None
  }

  function EscapeChar(c: char): string {
    match ReferenceFor(c)
    case Some(name) => "&" + name + ";"
    case None => [c]
  }

  function EscapeText(s: string): string {
    if s == [] then [] else EscapeChar(s[0]) + EscapeText(s[1..])
  }

  /** Character by character, in whatever text: the five predefined entities of section 4.6 of XML 1.0, and
      character references for the white space that would not survive. */
  lemma EscapeTextIs(before: string, c: char, after: string)
    ensures EscapeText(before + [c] + after) == EscapeText(before) + EscapeText([c]) + EscapeText(after)
    ensures EscapeText([c]) ==
      (if c == '&' then "&amp;" else if c == '<' then "&lt;" else if c == '>' then "&gt;"
       else if c == '\"' then "&quot;" else if c == '\'' then "&apos;"
       else if c == '\n' then "&#10;" else if c == '\r' then "&#13;" else if c == '\t' then "&#9;" else [c])
  {
    EscapeOne(c);
    EscapeConcat(before, [c]);
    EscapeConcat(before + [c], after);
    hide EscapeText;
  }

  lemma EscapeOne(c: char)
    ensures EscapeText([c]) == EscapeChar(c)
  {
    assert [c][1..] == "" && EscapeText("") == "";
    hide EscapeChar;
  }

  lemma {:induction false} EscapeConcat(a: string, b: string)
    ensures EscapeText(a + b) == EscapeText(a) + EscapeText(b)
  {
    hide EscapeChar;
    if a == "" {
      assert a + b == b;
    } else {
      EscapeConcat(a[1..], b);
      assert (a + b)[0] == a[0] && (a + b)[1..] == a[1..] + b;
    }
  }

  method XmlEscape(s: string) returns (out: string)
    ensures out == EscapeText(s)
  {
    out := "";
    for i := 0 to |s|
      invariant out + EscapeText(s[i..]) == EscapeText(s)
    {
      assert s[i..][1..] == s[i + 1..];
      assert out + (EscapeChar(s[i]) + EscapeText(s[i + 1..])) == (out + EscapeChar(s[i])) + EscapeText(s[i + 1..]);
      out := out + EscapeChar(s[i]);
    }
    assert s[|s|..] == [];
  }

  function FirstSemicolon(s: string): (r: Option<nat>)
    ensures r.Some? ==> r.value < |s|
  {
    if s == [] then None
    else if s[0] == ';' then Some(0)
    else match FirstSemicolon(s[1..])
      case None => None
      case Some(j) => Some(j + 1)
  }

  function HexValue(c: char): Option<nat> {
    if '0' <= c <= '9' then Some(c as nat - '0' as nat)
    else if 'a' <= c <= 'f' then Some(c as nat - 'a' as nat + 10)
    else if 'A' <= c <= 'F' then Some(c as nat - 'A' as nat + 10)
    else None
  }

  function ParseHex(s: string): Option<nat> {
    if s == [] then None
    else
      match HexValue(s[|s| - 1])
      case None => None
      case Some(low) =>
        if |s| == 1 then Some(low)
        else match ParseHex(s[..|s| - 1])
          case None => None
          case Some(high) => Some(16 * high + low)
  }

  function CodePoint(n: Option<nat>): Option<char> {
    match n
    case None => None
    case Some(v) => if 0 < v < 0xD800 || 0xE000 <= v < 0x11_0000 then Some(v as char) else None
  }

  /** What `&name;` stands for: a predefined entity or a character reference. */
  function Dereference(name: string): Option<char> {
    if name == "amp" then Some('&')
    else if name == "lt" then Some('<')
    else if name == "gt" then Some('>')
    else if name == "quot" then Some('\"')
    else if name == "apos" then Some('\'')
    else if |name| > 1 && name[0] == '#' then
      if name[1] == 'x' then CodePoint(ParseHex(name[2..])) else CodePoint(Numerals.ParseNat(name[1..]))
    else None
  }

  /** Attribute-value normalisation: references are replaced by what they stand for, a LITERAL
      white-space character becomes a space. `None` is an unknown or unterminated reference. */
  function Normalised(s: string): Option<string> {
    if s == [] then
      Some([])
    else if s[0] == '&' then
      match FirstSemicolon(s[1..])
      case None => None
      case Some(j) =>
        match (Dereference(s[1..j + 1]), Normalised(s[j + 2..]))
        case (Some(c), Some(rest)) => Some([c] + rest)
        case _ => None
    else
      match Normalised(s[1..])
      case None => None
      case Some(rest) =>
        var c := if s[0] == '\n' || s[0] == '\r' || s[0] == '\t' then ' ' else s[0];
        Some([c] + rest)
  }

  lemma {:induction false} FirstSemicolonAfter(name: string, rest: string)
    requires ';' !in name
    ensures FirstSemicolon(name + ";" + rest) == Some(|name|)
  {
    if name != [] {
      assert (name + ";" + rest)[1..] == name[1..] + ";" + rest;
      FirstSemicolonAfter(name[1..], rest);
    }
  }

  lemma DereferenceInverts(c: char)
    requires ReferenceFor(c).Some?
    ensures ';' !in ReferenceFor(c).value
    ensures Dereference(ReferenceFor(c).value) == Some(c)
  {
    var name := ReferenceFor(c).value;
    if name[0] == '#' {
      if c == '\n' {
        assert name[1..] == "10" && "10"[..1] == "1";
        assert Numerals.ParseNat("1") == Some(1);
        assert Numerals.ParseNat("10") == Some(10);
      } else if c == '\r' {
        assert name[1..] == "13" && "13"[..1] == "1";
        assert Numerals.ParseNat("1") == Some(1);
        assert Numerals.ParseNat("13") == Some(13);
      } else {
        assert name[1..] == "9";
        assert Numerals.ParseNat("9") == Some(9);
      }
    }
  }

  lemma NormalisedReference(c: char, rest: string)
    requires ReferenceFor(c).Some? && Normalised(rest).Some?
    ensures Normalised("&" + ReferenceFor(c).value + ";" + rest) == Some([c] + Normalised(rest).value)
  {
    var name := ReferenceFor(c).value;
    var text := "&" + name + ";" + rest;
    DereferenceInverts(c);
    assert text[1..] == name + ";" + rest;
    FirstSemicolonAfter(name, rest);
    assert text[1..|name| + 1] == name;
    assert text[|name| + 2..] == rest;
  }

  /** A predefined entity or a decimal character reference reads as its character, in front of any text. */
  lemma NormalisedEntity(name: string, rest: string, n: nat)
    requires Normalised(rest).Some? && 0 < n < 0xD800
    ensures var text := Normalised("&" + name + ";" + rest);
      && (name == "amp" ==> text == Some("&" + Normalised(rest).value))
      && (name == "lt" ==> text == Some("<" + Normalised(rest).value))
      && (name == "gt" ==> text == Some(">" + Normalised(rest).value))
      && (name == "quot" ==> text == Some("\"" + Normalised(rest).value))
      && (name == "apos" ==> text == Some("'" + Normalised(rest).value))
      && (name == "#" + Numerals.ShowNat(n) ==> text == Some([n as char] + Normalised(rest).value))
  {
    if ';' !in name {
      var text := "&" + name + ";" + rest;
      assert text[1..] == name + ";" + rest;
      FirstSemicolonAfter(name, rest);
      assert text[1..|name| + 1] == name && text[|name| + 2..] == rest;
      assert name == "#" + Numerals.ShowNat(n) ==> name[1..] == Numerals.ShowNat(n) && name[1] == Numerals.ShowNat(n)[0];
      Numerals.ParseShowNat(n);
    } else {
      assert forall i :: 0 <= i < |Numerals.ShowNat(n)| ==> Numerals.ShowNat(n)[i] != ';';
      assert name != "#" + Numerals.ShowNat(n);
    }
  }

  /** Any other character reads as itself, but white space as a space. */
  lemma NormalisedChar(c: char, rest: string)
    requires c != '&' && Normalised(rest).Some?
    ensures Normalised([c] + rest) == Some([if c in {'\n', '\r', '\t'} then ' ' else c] + Normalised(rest).value)
  {
    assert ([c] + rest)[1..] == rest;
  }

  /** Escaping then normalising is the identity on every string, line breaks, tabs and quotes
      included. */
  lemma {:induction false} NormalisedEscapeText(s: string)
    ensures Normalised(EscapeText(s)) == Some(s)
  {
    if s != [] {
      var rest := EscapeText(s[1..]);
      NormalisedEscapeText(s[1..]);
      assert s == [s[0]] + s[1..];
      if ReferenceFor(s[0]).Some? {
        NormalisedReference(s[0], rest);
        assert EscapeText(s) == "&" + ReferenceFor(s[0]).value + ";" + rest;
      } else {
        assert EscapeText(s)[1..] == rest;
      }
    }
  }

  /** `attr_from_value`: JSON text, except that a string which is not itself JSON is written bare. */
  function AttrFromValue(env: Env, v: Json): string {
    if v.Str? && env.readJson(v.s) == None then v.s else env.showJson(v)
  }

  /** `value_from_attr`: JSON if the text parses as JSON, else the text itself. */
  function ValueFromAttr(env: Env, s: string): Json {
    match env.readJson(s)
    case Some(v) => v
    case None => Str(s)
  }

  /** A string that is not JSON text is written bare, anything else as JSON text of it; and text that is not JSON
      is read as itself. */
  lemma AttrTextIs(env: Env, v: Json, s: string)
    requires env.Lawful()
    ensures v.Str? && env.readJson(v.s) == None ==> AttrFromValue(env, v) == v.s
    ensures !(v.Str? && env.readJson(v.s) == None) ==> AttrFromValue(env, v) == env.showJson(v)
    ensures env.readJson(s) == None ==> ValueFromAttr(env, s) == Str(s)
    ensures ValueFromAttr(env, env.showJson(v)) == v
  {
  }

  lemma BareAttributeRoundTrip(env: Env, v: Json)
    requires env.Lawful()
    ensures ValueFromAttr(env, AttrFromValue(env, v)) == v
  {
  }

  /** The whole way of one attribute value: JSON to text, escape, normalise, text to JSON. */
  lemma AttributeRoundTrip(env: Env, v: Json)
    requires env.Lawful()
    ensures Normalised(EscapeText(AttrFromValue(env, v))).Some?
    ensures ValueFromAttr(env, Normalised(EscapeText(AttrFromValue(env, v))).value) == v
  {
    NormalisedEscapeText(AttrFromValue(env, v));
  }

  /** Without the references for line breaks and tabs the value would not survive: the exact set of
      strings that plain normalisation keeps. */
  lemma {:induction false} NormalisedIsIdentityIff(s: string)
    requires '&' !in s
    ensures Normalised(s).Some? && |Normalised(s).value| == |s|
    ensures Normalised(s) == Some(s) <==> '\n' !in s && '\r' !in s && '\t' !in s
  {
    if s != [] {
      NormalisedIsIdentityIff(s[1..]);
      assert s == [s[0]] + s[1..];
      var n := Normalised(s).value;
      assert n[1..] == Normalised(s[1..]).value;
      if n == s {
        assert n[0] == s[0] && n[1..] == s[1..];
      }
    }
  }
}
