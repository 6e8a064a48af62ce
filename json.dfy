/** The text encoding of the two-field records the core writes to storage with
    `JSON.stringify` and reads back with `JSON.parse`. A record
    `{k1: v1, k2: v2}` is written as `{"k1":"v1","k2":"v2"}`, with `"` and `\`
    escaped inside string values. The decoder is strict: it accepts exactly
    the texts the encoder produces, so encoding is injective and the two
    functions are inverse bijections between records and valid texts. */
module Json {
  import opened Wrappers

  function EscapeChar(c: char): string {
    if c == '"' || c == '\\' then ['\\', c] else [c]
  }

  function Escape(s: string): string {
    if s == [] then [] else EscapeChar(s[0]) + Escape(s[1..])
  }

  /** A JSON string literal. */
  function Quote(s: string): (r: string)
    ensures |r| >= 2 && r[0] == '"'
  {
    ['"'] + Escape(s) + ['"']
  }

  /** Reads the body of a string literal, just past its opening quote, up to
      and including the closing quote; yields the value and the text after it. */
  function ParseBody(s: string): Option<(string, string)> {
    if s == [] then None
    else if s[0] == '"' then Some(([], s[1..]))
    else if s[0] == '\\' then
      if |s| >= 2 && (s[1] == '"' || s[1] == '\\') then
        match ParseBody(s[2..])
        case None => None
        case Some((v, rest)) => Some(([s[1]] + v, rest))
      else None
    else
      match ParseBody(s[1..])
      case None => None
      case Some((v, rest)) => Some(([s[0]] + v, rest))
  }

  function ParseQuoted(s: string): Option<(string, string)> {
    if |s| > 0 && s[0] == '"' then ParseBody(s[1..]) else None
  }

  /** One escaped character in front of a parsable body. */
  lemma ParseBodyStep(c: char, tail: string, v: string, rest: string)
    requires ParseBody(tail) == Some((v, rest))
    ensures ParseBody(EscapeChar(c) + tail) == Some(([c] + v, rest))
  {
    var s := EscapeChar(c) + tail;
    if c == '"' || c == '\\' {
      assert s[0] == '\\' && s[1] == c && s[2..] == tail;
    } else {
      assert s[0] == c && s[1..] == tail;
    }
  }

  lemma {:induction false} ParseBodyOfEscape(v: string, rest: string)
    ensures ParseBody(Escape(v) + ['"'] + rest) == Some((v, rest))
  {
    if v == [] {
      assert Escape(v) + ['"'] + rest == ['"'] + rest;
    } else {
      var tail := Escape(v[1..]) + ['"'] + rest;
      ParseBodyOfEscape(v[1..], rest);
      ParseBodyStep(v[0], tail, v[1..], rest);
      assert Escape(v) + ['"'] + rest == EscapeChar(v[0]) + tail;
      assert [v[0]] + v[1..] == v;
    }
  }

  lemma {:induction false} ParseBodyCanonical(s: string)
    requires ParseBody(s).Some?
    ensures s == Escape(ParseBody(s).value.0) + ['"'] + ParseBody(s).value.1
  {
    var (v, rest) := ParseBody(s).value;
    if s[0] == '"' {
      assert v == [];
    } else if s[0] == '\\' {
      ParseBodyCanonical(s[2..]);
      var (v', rest') := ParseBody(s[2..]).value;
      assert v == [s[1]] + v' && rest == rest';
      assert v[1..] == v';
      assert s == [s[0], s[1]] + s[2..];
    } else {
      ParseBodyCanonical(s[1..]);
      var (v', rest') := ParseBody(s[1..]).value;
      assert v == [s[0]] + v' && rest == rest';
      assert v[1..] == v';
      assert s == [s[0]] + s[1..];
    }
  }

  /** The `"key":` text that precedes a field's value. */
  function FieldPrefix(open: string, key: string): string {
    open + Quote(key) + ":"
  }

  /** `JSON.stringify({k1: v1, k2: v2})`. */
  function EncodePair(k1: string, k2: string, v1: string, v2: string): (r: string)
    ensures |r| > 0 && r[0] == '{'
  {
    FieldPrefix("{", k1) + Quote(v1) + FieldPrefix(",", k2) + Quote(v2) + "}"
  }

  /** Reads the string value that follows `prefix` at the start of `s`;
      yields the value and the text after it. */
  function ParseField(prefix: string, s: string): Option<(string, string)> {
    if prefix <= s then ParseQuoted(s[|prefix|..]) else None
  }

  /** `JSON.parse` of a text expected to hold the record `{k1, k2}`; `None`
      where the source's parse would throw or yield something else. */
  function DecodePair(k1: string, k2: string, s: string): Option<(string, string)> {
    match ParseField(FieldPrefix("{", k1), s)
    case None => None
    case Some((v1, rest)) =>
      match ParseField(FieldPrefix(",", k2), rest)
      case None => None
      case Some((v2, rest2)) => if rest2 == "}" then Some((v1, v2)) else None
  }

  lemma ParseQuotedOfQuote(v: string, rest: string)
    ensures ParseQuoted(Quote(v) + rest) == Some((v, rest))
  {
    var s := Quote(v) + rest;
    assert s[1..] == Escape(v) + ['"'] + rest;
    ParseBodyOfEscape(v, rest);
  }

  lemma ParseQuotedCanonical(s: string)
    requires ParseQuoted(s).Some?
    ensures s == Quote(ParseQuoted(s).value.0) + ParseQuoted(s).value.1
  {
    ParseBodyCanonical(s[1..]);
    assert s == [s[0]] + s[1..];
  }

  lemma ParseFieldOf(prefix: string, v: string, rest: string)
    ensures ParseField(prefix, prefix + Quote(v) + rest) == Some((v, rest))
  {
    var s := prefix + Quote(v) + rest;
    assert s[|prefix|..] == Quote(v) + rest;
    ParseQuotedOfQuote(v, rest);
  }

  lemma ParseFieldCanonical(prefix: string, s: string)
    requires ParseField(prefix, s).Some?
    ensures s == prefix + Quote(ParseField(prefix, s).value.0) + ParseField(prefix, s).value.1
  {
    var a := s[|prefix|..];
    assert s == prefix + a;
    ParseQuotedCanonical(a);
  }

  /** Decoding what was encoded gives back the record. */
  lemma DecodeEncodePair(k1: string, k2: string, v1: string, v2: string)
    ensures DecodePair(k1, k2, EncodePair(k1, k2, v1, v2)) == Some((v1, v2))
  {
    var p1, p2 := FieldPrefix("{", k1), FieldPrefix(",", k2);
    var rest := p2 + Quote(v2) + "}";
    assert EncodePair(k1, k2, v1, v2) == p1 + Quote(v1) + rest;
    ParseFieldOf(p1, v1, rest);
    ParseFieldOf(p2, v2, "}");
  }

  /** Every text the decoder accepts is the encoding of what it decodes to. */
  lemma EncodeDecodePair(k1: string, k2: string, s: string)
    requires DecodePair(k1, k2, s).Some?
    ensures EncodePair(k1, k2, DecodePair(k1, k2, s).value.0, DecodePair(k1, k2, s).value.1) == s
  {
    var p1, p2 := FieldPrefix("{", k1), FieldPrefix(",", k2);
    var (v1, rest) := ParseField(p1, s).value;
    ParseFieldCanonical(p1, s);
    var (v2, rest2) := ParseField(p2, rest).value;
    ParseFieldCanonical(p2, rest);
    assert s == p1 + Quote(v1) + (p2 + Quote(v2) + "}");
  }

  /** Two records with the same encoding are the same record. */
  lemma EncodePairInjective(k1: string, k2: string, v1: string, v2: string, w1: string, w2: string)
    requires EncodePair(k1, k2, v1, v2) == EncodePair(k1, k2, w1, w2)
    ensures v1 == w1 && v2 == w2
  {
    DecodeEncodePair(k1, k2, v1, v2);
    DecodeEncodePair(k1, k2, w1, w2);
  }
}
