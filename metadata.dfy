/**
  The metadata map that `buildMetadataMap` makes of the flat EXIF entries:
  tag name to the text of its first value, cut at the first NUL. Entries
  without a name, entries of the thumbnail IFD and entries whose cut text is
  empty are skipped; of several entries with one name the last one wins.
*/
module Metadata {
  import opened GoStrings
  import opened ExifInputs

  /** The text before the first NUL: `strings.Split(s, "\x00")[0]`. */
  function NulTerminated(s: string): (t: string)
    ensures '\0' !in t
    ensures |t| <= |s| && t == s[..|t|]
    ensures |t| < |s| ==> s[|t|] == '\0'
  {
    FirstPiece(s, '\0');
    Split(s, '\0')[0]
  }

  /** Whether an entry reaches the map. */
  predicate Accepted(e: Entry)
  {
    e.tagName != "" && e.ifdPath != ThumbnailFqIfdPath && NulTerminated(e.formattedFirst) != ""
  }

  /** The map built from the entries, in order. */
  function MetadataOf(entries: seq<Entry>): (m: map<string, string>)
    ensures forall k :: k in m ==> m[k] != "" && '\0' !in m[k]
  {
    if entries == [] then map[]
    else
      var e := entries[|entries| - 1];
      var m := MetadataOf(entries[..|entries| - 1]);
      if Accepted(e) then m[e.tagName := NulTerminated(e.formattedFirst)] else m
  }

  /** A name is in the map exactly when some accepted entry carries it. */
  lemma {:induction false} MetadataKeys(entries: seq<Entry>, name: string)
    ensures name in MetadataOf(entries) <==>
              exists i :: 0 <= i < |entries| && Accepted(entries[i]) && entries[i].tagName == name
  {
    if entries != [] {
      var front := entries[..|entries| - 1];
      MetadataKeys(front, name);
      assert forall i :: 0 <= i < |front| ==> front[i] == entries[i];
    }
  }

  /** The value under a name is that of the last accepted entry carrying it. */
  lemma {:induction false} MetadataLastWins(entries: seq<Entry>, i: nat)
    requires i < |entries| && Accepted(entries[i])
    requires forall j :: i < j < |entries| && Accepted(entries[j]) ==> entries[j].tagName != entries[i].tagName
    ensures entries[i].tagName in MetadataOf(entries)
    ensures MetadataOf(entries)[entries[i].tagName] == NulTerminated(entries[i].formattedFirst)
  {
    var front := entries[..|entries| - 1];
    if i < |entries| - 1 {
      assert forall j :: i < j < |front| ==> front[j] == entries[j];
      MetadataLastWins(front, i);
    }
  }

  /** Entries of the thumbnail IFD make no difference, wherever they stand. */
  lemma {:induction false} ThumbnailEntriesIgnored(entries: seq<Entry>, e: Entry, k: nat)
    requires e.ifdPath == ThumbnailFqIfdPath && k <= |entries|
    ensures MetadataOf(entries[..k] + [e] + entries[k..]) == MetadataOf(entries)
  {
    var all := entries[..k] + [e] + entries[k..];
    if k == |entries| {
      assert all == entries + [e];
      assert all[..|all| - 1] == entries;
    } else {
      var front := entries[..|entries| - 1];
      var last := entries[|entries| - 1];
      ThumbnailEntriesIgnored(front, e, k);
      assert all[..|all| - 1] == front[..k] + [e] + front[k..];
      assert all[|all| - 1] == last;
      var m := MetadataOf(front);
      assert MetadataOf(all) == if Accepted(last) then m[last.tagName := NulTerminated(last.formattedFirst)] else m;
    }
  }
}
