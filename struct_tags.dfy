/**
  Struct tags in the conventional `key:"value"` form: pairs separated by
  spaces, a key made of printable characters other than ':' and '"', a colon,
  and a double-quoted value. A tag that does not follow the form is an error.
*/
module StructTags {
  import opened Wrappers

  datatype Tag = Tag(key: string, value: string)

  /** The unparsed rest of a tag that does not follow the form. */
  datatype TagError = TagSyntax(at: string)

  predicate KeyChar(c: char)
  {
    ' ' < c && c != ':' && c != '"' && c != 0x7f as char
  }

  /** Drop leading spaces. */
  function SkipSpaces(s: string): (t: string)
    ensures |t| <= |s|
  {
    if s != [] && s[0] == ' ' then SkipSpaces(s[1..]) else s
  }

  /** Length of the key at the front of `s`. */
  function KeyLength(s: string): (n: nat)
    ensures n <= |s|
    ensures forall i :: 0 <= i < n ==> KeyChar(s[i])
    ensures n < |s| ==> !KeyChar(s[n])
  {
    if s != [] && KeyChar(s[0]) then 1 + KeyLength(s[1..]) else 0
  }

  /** Index of the first '"' in `s`, or |s| when there is none. */
  function QuoteIndex(s: string): (n: nat)
    ensures n <= |s|
    ensures '"' !in s[..n]
    ensures n < |s| ==> s[n] == '"'
  {
    if s == [] then 0
    else if s[0] == '"' then 0
    else
      var n := 1 + QuoteIndex(s[1..]);
      assert s[..n] == [s[0]] + s[1..][..n - 1];
      n
  }

  /** All `key:"value"` pairs of a struct tag, in order. */
  function ParseStructTag(s: string): (r: Result<seq<Tag>, TagError>)
    decreases |s|, 1
  {
    ParsePairs(SkipSpaces(s))
  }

  /** The pairs of a tag text that does not start with a space. */
  function ParsePairs(t: string): (r: Result<seq<Tag>, TagError>)
    decreases |t|, 0
  {
    if t == [] then Success([])
    else
      var k := KeyLength(t);
      if k == 0 || k + 1 >= |t| || t[k] != ':' || t[k + 1] != '"' then Failure(TagSyntax(t))
      else
        var body := t[k + 2..];
        var n := QuoteIndex(body);
        if n == |body| then Failure(TagSyntax(t))
        else match ParseStructTag(body[n + 1..])
          case Failure(e) => Failure(e)
          case Success(rest) => Success([Tag(t[..k], body[..n])] + rest)
  }

  /** A tag pair that can be written in the conventional form. */
  predicate Writable(tag: Tag)
  {
    tag.key != [] && (forall i :: 0 <= i < |tag.key| ==> KeyChar(tag.key[i])) && '"' !in tag.value
  }

  /** `key:"value"` */
  function PairText(tag: Tag): string
  {
    tag.key + (":\"" + (tag.value + "\""))
  }

  /** `key:"value"` pairs joined by single spaces. */
  function FormatStructTag(tags: seq<Tag>): string
  {
    if tags == [] then ""
    else if |tags| == 1 then PairText(tags[0])
    else PairText(tags[0]) + (" " + FormatStructTag(tags[1..]))
  }

  /** `tag` in front of a parse result. */
  function Prepend(tag: Tag, r: Result<seq<Tag>, TagError>): Result<seq<Tag>, TagError>
  {
    match r
    case Failure(e) => Failure(e)
    case Success(tags) => Success([tag] + tags)
  }

  /** One pair in front of the rest of a tag. */
  lemma ParsePair(tag: Tag, rest: string)
    requires Writable(tag)
    requires rest == [] || rest[0] == ' '
    ensures ParseStructTag(PairText(tag) + rest) == Prepend(tag, ParseStructTag(rest))
  {
    var s := PairText(tag) + rest;
    var k := |tag.key|;
    var body := tag.value + ("\"" + rest);
    PairShape(tag, rest);
    QuoteIndexOf(tag.value, "\"" + rest);
    assert body[|tag.value| + 1..] == rest;
    assert body[..|tag.value|] == tag.value;
  }

  /** The front of `key:"value"…`: no leading space, the key, then `:"` and the body. */
  lemma PairShape(tag: Tag, rest: string)
    requires Writable(tag)
    ensures var s := PairText(tag) + rest;
            var k := |tag.key|;
            && SkipSpaces(s) == s && KeyLength(s) == k && k + 1 < |s|
            && s[k] == ':' && s[k + 1] == '"' && s[..k] == tag.key
            && s[k + 2..] == tag.value + ("\"" + rest)
  {
    var s := PairText(tag) + rest;
    var tail := ":\"" + (tag.value + ("\"" + rest));
    assert s == tag.key + tail;
    assert s[0] == tag.key[0];
    KeyLengthOf(tag.key, tail);
  }

  lemma {:induction false} KeyLengthOf(key: string, rest: string)
    requires forall i :: 0 <= i < |key| ==> KeyChar(key[i])
    requires rest != [] && !KeyChar(rest[0])
    ensures KeyLength(key + rest) == |key|
  {
    if key != [] {
      assert (key + rest)[1..] == key[1..] + rest;
      KeyLengthOf(key[1..], rest);
    } else {
      assert key + rest == rest;
    }
  }

  lemma {:induction false} QuoteIndexOf(value: string, rest: string)
    requires '"' !in value
    requires rest != [] && rest[0] == '"'
    ensures QuoteIndex(value + rest) == |value|
  {
    if value != [] {
      assert (value + rest)[1..] == value[1..] + rest;
      assert value[0] in value;
      assert forall c :: c in value[1..] ==> c in value;
      QuoteIndexOf(value[1..], rest);
    } else {
      assert value + rest == rest;
    }
  }

  /** Round trip: pairs written in the conventional form parse back to the same pairs. */
  lemma {:induction false} ParseFormatStructTag(tags: seq<Tag>)
    requires forall i :: 0 <= i < |tags| ==> Writable(tags[i])
    ensures ParseStructTag(FormatStructTag(tags)) == Success(tags)
  {
    if tags == [] {
    } else if |tags| == 1 {
      ParsePair(tags[0], "");
      assert PairText(tags[0]) + "" == FormatStructTag(tags);
      assert [tags[0]] + [] == tags;
    } else {
      var rest := FormatStructTag(tags[1..]);
      ParseFormatStructTag(tags[1..]);
      var spaced := " " + rest;
      ParseLeadingSpace(rest);
      ParsePair(tags[0], spaced);
      assert [tags[0]] + tags[1..] == tags;
    }
  }

  /** Leading spaces are skipped. */
  lemma ParseLeadingSpace(s: string)
    ensures ParseStructTag(" " + s) == ParseStructTag(s)
  {
    assert (" " + s)[1..] == s;
    assert SkipSpaces(" " + s) == SkipSpaces(s);
  }

  /** The single-pair tag `exif:"…"` of the record schema parses to that one pair. */
  lemma ExifTagPair(value: string)
    requires '"' !in value
    ensures ParseStructTag("exif:\"" + value + "\"") == Success([Tag("exif", value)])
  {
    var tag := Tag("exif", value);
    assert Writable(tag);
    ParsePair(tag, "");
    EmptyTag();
    assert [tag] + [] == [tag];
    assert PairText(tag) + "" == "exif:\"" + value + "\"";
  }

  /** An empty tag has no pairs. */
  lemma EmptyTag()
    ensures ParseStructTag("") == Success([])
  {
  }

  /** A key without a quoted value is an error. */
  lemma KeyWithoutValue()
    ensures ParseStructTag("exif").Failure?
  {
  }

  /** A value without its closing quote is an error. */
  lemma UnterminatedValue(value: string)
    requires '"' !in value
    ensures ParseStructTag("exif:\"" + value).Failure?
  {
    var t := "exif:\"" + value;
    assert t[0] == 'e';
    assert SkipSpaces(t) == t;
    assert KeyLength(t) == 4 by {
      assert t == "exif" + t[4..];
      KeyLengthOf("exif", t[4..]);
    }
    assert t[6..] == value;
    QuoteIndexNone(value);
  }

  lemma {:induction false} QuoteIndexNone(s: string)
    requires '"' !in s
    ensures QuoteIndex(s) == |s|
  {
    if s != [] {
      assert forall c :: c in s[1..] ==> c in s;
      QuoteIndexNone(s[1..]);
    }
  }
}
