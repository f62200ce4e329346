/**
  From a field's struct tag to the text it is decoded from: the `exif` pairs
  of the tag, the comma-separated EXIF tag names they list, and the first of
  those names present in the metadata map with a non-empty value.
*/
module TagLookup {
  import opened Wrappers
  import opened GoStrings
  import opened StructTags

  /** The pairs with key `exif`, in order. */
  function ExifOnly(tags: seq<Tag>): (r: seq<Tag>)
    ensures forall t :: t in r <==> t in tags && t.key == "exif"
    ensures |r| <= |tags|
    ensures |tags| == 1 ==> r == if tags[0].key == "exif" then tags else []
  {
    if tags == [] then []
    else
      var front := tags[..|tags| - 1];
      var last := tags[|tags| - 1];
      assert tags == front + [last];
      ExifOnly(front) + (if last.key == "exif" then [last] else [])
  }

  /** Filtering keeps the order: the `exif` pairs of a concatenation are those of
      the first part followed by those of the second. */
  lemma {:induction false} ExifOnlyAppend(a: seq<Tag>, b: seq<Tag>)
    ensures ExifOnly(a + b) == ExifOnly(a) + ExifOnly(b)
  {
    if b == [] {
      assert a + b == a;
    } else {
      var front := b[..|b| - 1];
      var last := b[|b| - 1];
      assert (a + b)[..|a + b| - 1] == a + front;
      assert (a + b)[|a + b| - 1] == last;
      ExifOnlyAppend(a, front);
    }
  }

  /** The `exif` pairs of a raw struct tag, or the tag's syntax error. */
  function ExifTagsOf(tag: string): Result<seq<Tag>, TagError>
  {
    match ParseStructTag(tag)
    case Failure(e) => Failure(e)
    case Success(tags) => Success(ExifOnly(tags))
  }

  /** A struct tag made of one `exif` pair yields that pair. */
  lemma ExifTagsOfSingle(names: string)
    requires '"' !in names
    ensures ExifTagsOf("exif:\"" + names + "\"") == Success([Tag("exif", names)])
  {
    ExifTagPair(names);
    assert [Tag("exif", names)] == [] + [Tag("exif", names)];
  }

  /** The EXIF tag names listed by the pairs, in order. */
  function Candidates(tags: seq<Tag>): seq<string>
  {
    if tags == [] then []
    else Candidates(tags[..|tags| - 1]) + Split(tags[|tags| - 1].value, ',')
  }

  lemma {:induction false} CandidatesAppend(a: seq<Tag>, b: seq<Tag>)
    ensures Candidates(a + b) == Candidates(a) + Candidates(b)
  {
    if b != [] {
      var front, last := b[..|b| - 1], b[|b| - 1];
      var ab := a + b;
      assert ab[..|ab| - 1] == a + front;
      assert ab[|ab| - 1] == last;
      var names := Split(last.value, ',');
      assert Candidates(ab) == Candidates(a + front) + names;
      assert Candidates(b) == Candidates(front) + names;
      CandidatesAppend(a, front);
    } else {
      assert a + b == a;
    }
  }

  /** A name that has a non-empty value in the map. */
  predicate Present(m: map<string, string>, name: string)
  {
    name in m && m[name] != ""
  }

  /** The value of the first present name. */
  function FirstPresent(m: map<string, string>, names: seq<string>): (r: Option<string>)
    ensures r.None? <==> forall k :: 0 <= k < |names| ==> !Present(m, names[k])
    ensures r.Some? ==> r.value != ""
  {
    if names == [] then None
    else if Present(m, names[0]) then Some(m[names[0]])
    else FirstPresent(m, names[1..])
  }

  /** The value found is that of the first present name. */
  lemma {:induction false} FirstPresentAt(m: map<string, string>, names: seq<string>, k: nat)
    requires k < |names| && Present(m, names[k])
    requires forall j :: 0 <= j < k ==> !Present(m, names[j])
    ensures FirstPresent(m, names) == Some(m[names[k]])
  {
    if k > 0 {
      FirstPresentAt(m, names[1..], k - 1);
    }
  }

  lemma {:induction false} FirstPresentAppend(m: map<string, string>, a: seq<string>, b: seq<string>)
    ensures FirstPresent(m, a + b) == if FirstPresent(m, a).Some? then FirstPresent(m, a) else FirstPresent(m, b)
  {
    if a != [] {
      assert (a + b)[0] == a[0] && (a + b)[1..] == a[1..] + b;
      FirstPresentAppend(m, a[1..], b);
    } else {
      assert a + b == b;
    }
  }

  /** `getValueFromMetadata`: the value of the first present name listed by the pairs. */
  function Lookup(m: map<string, string>, tags: seq<Tag>): Option<string>
  {
    FirstPresent(m, Candidates(tags))
  }

  /** One more pair is consulted only when the pairs before it found nothing. */
  lemma LookupStep(m: map<string, string>, tags: seq<Tag>, i: nat)
    requires i < |tags|
    ensures Lookup(m, tags[..i + 1]) ==
              if Lookup(m, tags[..i]).Some? then Lookup(m, tags[..i])
              else FirstPresent(m, Split(tags[i].value, ','))
  {
    assert tags[..i + 1][..i] == tags[..i];
    FirstPresentAppend(m, Candidates(tags[..i]), Split(tags[i].value, ','));
  }

  /** Once a prefix of the pairs finds a value, the later pairs are not consulted. */
  lemma LookupPrefix(m: map<string, string>, tags: seq<Tag>, i: nat)
    requires i <= |tags| && Lookup(m, tags[..i]).Some?
    ensures Lookup(m, tags) == Lookup(m, tags[..i])
  {
    CandidatesAppend(tags[..i], tags[i..]);
    assert tags[..i] + tags[i..] == tags;
    FirstPresentAppend(m, Candidates(tags[..i]), Candidates(tags[i..]));
  }

  /** A later pair is consulted only when no name of the earlier ones is present. */
  lemma LookupOrder(m: map<string, string>, first: Tag, rest: seq<Tag>)
    ensures Lookup(m, [first] + rest) ==
              if FirstPresent(m, Split(first.value, ',')).Some? then FirstPresent(m, Split(first.value, ','))
              else Lookup(m, rest)
  {
    CandidatesAppend([first], rest);
    assert [first][..0] == [];
    assert Candidates([first]) == Split(first.value, ',');
    FirstPresentAppend(m, Split(first.value, ','), Candidates(rest));
  }
}
