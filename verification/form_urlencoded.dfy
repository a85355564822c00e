/** The application/x-www-form-urlencoded serializer of section 5.2 of the WHATWG
    URL Standard, which `URLSearchParams.prototype.toString` runs: every name and
    value is UTF-8 encoded, bytes outside the serializer's safe set are
    percent-encoded, a space becomes `+`, each pair is written `name=value` and the
    pairs are joined with `&`. */
module FormUrlEncoded {
  import opened Text

  /** A (name, value) pair of a search-parameter list, in insertion order. */
  type Pair = (string, string)

  /** The characters the serializer copies unchanged: ASCII letters, digits and
      `*`, `-`, `.`, `_`. */
  predicate IsSafe(c: char)
  {
    ('a' <= c <= 'z') || ('A' <= c <= 'Z') || ('0' <= c <= '9')
    || c == '*' || c == '-' || c == '.' || c == '_'
  }

  predicate AllSafe(s: string)
  {
    forall i | 0 <= i < |s| :: IsSafe(s[i])
  }

  /** What an encoded character can turn into: safe characters, `+` and `%`. */
  predicate IsEncodedChar(c: char)
  {
    IsSafe(c) || c == '+' || c == '%'
  }

  function HexDigit(d: nat): (c: char)
    ensures IsSafe(c)
  {
    "0123456789ABCDEF"[d % 16]
  }

  /** The UTF-8 bytes of a Unicode scalar value. */
  function Utf8(cp: nat): (bytes: seq<nat>)
    ensures 1 <= |bytes| <= 4
  {
    if cp < 0x80 then [cp]
    else if cp < 0x800 then [0xC0 + cp / 0x40, 0x80 + cp % 0x40]
    else if cp < 0x10000 then [0xE0 + cp / 0x1000, 0x80 + (cp / 0x40) % 0x40, 0x80 + cp % 0x40]
    else [0xF0 + cp / 0x40000, 0x80 + (cp / 0x1000) % 0x40, 0x80 + (cp / 0x40) % 0x40, 0x80 + cp % 0x40]
  }

  /** `%XX` for each byte, with upper-case hexadecimal digits. */
  function PercentBytes(bytes: seq<nat>): (r: string)
    ensures |r| == 3 * |bytes|
    ensures forall i | 0 <= i < |r| :: IsEncodedChar(r[i])
  {
    if |bytes| == 0 then ""
    else ['%', HexDigit(bytes[0] / 16), HexDigit(bytes[0] % 16)] + PercentBytes(bytes[1..])
  }

  function EncodeChar(c: char): (r: string)
    ensures |r| >= 1
    ensures forall i | 0 <= i < |r| :: IsEncodedChar(r[i])
    ensures IsSafe(c) <==> r == [c]
  {
    if IsSafe(c) then [c]
    else if c == ' ' then "+"
    else PercentBytes(Utf8(c as int))
  }

  /** The serializer's byte-wise encoding of one name or value. */
  function Encode(s: string): (r: string)
    ensures |r| >= |s|
    ensures forall i | 0 <= i < |r| :: IsEncodedChar(r[i])
    ensures AllSafe(s) ==> r == s
  {
    if |s| == 0 then "" else EncodeChar(s[0]) + Encode(s[1..])
  }

  function PairText(p: Pair): string
  {
    Encode(p.0) + "=" + Encode(p.1)
  }

  lemma PairTextOfSafe(p: Pair)
    requires AllSafe(p.0) && AllSafe(p.1)
    ensures PairText(p) == p.0 + "=" + p.1
  {
  }

  /** `URLSearchParams.toString()`: `name=value` pieces joined by `&`. */
  function Serialize(pairs: seq<Pair>): string
  {
    Join(seq(|pairs|, i requires 0 <= i < |pairs| => PairText(pairs[i])), '&')
  }

  /** Reads a serialized list back as pairs: split on `&`, then each piece on `=`.
      (It does not undo percent-encoding; it is the inverse of `Serialize` on
      lists whose names and values are all safe.) */
  function ReadPairs(query: string): seq<Pair>
  {
    var pieces := Split(query, '&');
    seq(|pieces|, i requires 0 <= i < |pieces| => ReadPair(pieces[i]))
  }

  function ReadPair(piece: string): Pair
  {
    var kv := Split(piece, '=');
    (kv[0], if |kv| >= 2 then kv[1] else "")
  }

  /** The serialized form never contains `?`, whatever the names and values: so it
      can follow the `?` of a URL without introducing a second one. */
  lemma SerializeHasNoQuestionMark(pairs: seq<Pair>)
    ensures '?' !in Serialize(pairs)
  {
    var pieces := seq(|pairs|, i requires 0 <= i < |pairs| => PairText(pairs[i]));
    forall i | 0 <= i < |pieces|
      ensures '?' !in pieces[i]
    {
      var a, b := Encode(pairs[i].0), Encode(pairs[i].1);
      assert pieces[i] == a + "=" + b;
      assert forall k | 0 <= k < |pieces[i]| :: IsEncodedChar(pieces[i][k]) || pieces[i][k] == '=';
    }
    JoinAvoids(pieces, '&', '?');
  }

  /** The serialized form of a non-empty list ends with its last pair. */
  lemma SerializeEndsWithLastPair(pairs: seq<Pair>)
    requires |pairs| >= 1
    ensures EndsWith(Serialize(pairs), PairText(pairs[|pairs| - 1]))
  {
    var pieces := seq(|pairs|, i requires 0 <= i < |pairs| => PairText(pairs[i]));
    JoinEndsWithLast(pieces, '&');
  }

  /** Reading back a serialized non-empty list of safe names and values gives the
      list: names, values and their order all survive. */
  lemma ReadSerialize(pairs: seq<Pair>)
    requires |pairs| >= 1
    requires forall i | 0 <= i < |pairs| :: AllSafe(pairs[i].0) && AllSafe(pairs[i].1)
    ensures ReadPairs(Serialize(pairs)) == pairs
  {
    var pieces := seq(|pairs|, i requires 0 <= i < |pairs| => PairText(pairs[i]));
    forall i | 0 <= i < |pieces|
      ensures pieces[i] == pairs[i].0 + "=" + pairs[i].1
      ensures '&' !in pieces[i]
      ensures ReadPair(pieces[i]) == pairs[i]
    {
      var name, value := pairs[i].0, pairs[i].1;
      assert pieces[i] == name + "=" + value;
      assert '&' !in name && '&' !in value && '=' !in name && '=' !in value by {
        assert !IsSafe('&') && !IsSafe('=');
      }
      SplitAtFirstSeparator(name, '=', value);
      SplitWithoutSeparator(value, '=');
      assert Split(pieces[i], '=') == [name, value];
    }
    SplitJoin(pieces, '&');
  }
}
