/** The storage key that is removed when a report with a photo is deleted,
    and the key under which an upload stores its photo. The object store
    itself is not modelled; only the keys handed to it are. */
module Storage {
  import opened Optional

  /** The part of a public photo URL that precedes the object key. */
  const Marker: string := "/storage/v1/object/public/uploads/"

  /** The bucket photos are uploaded to and removed from. */
  const Bucket: string := "uploads"

  predicate OccursAt(s: string, sep: string, i: nat) {
    i + |sep| <= |s| && s[i..i + |sep|] == sep
  }

  predicate Occurs(s: string, sep: string) {
    exists i: nat :: i <= |s| && OccursAt(s, sep, i)
  }

  /** The leftmost occurrence of `sep` in `s` at or after `from`, as
      `str.find` scans. */
  function FindFrom(s: string, sep: string, from: nat): (r: Option<nat>)
    ensures r.Some? ==> from <= r.value && OccursAt(s, sep, r.value)
    ensures r.Some? ==> forall j: nat :: from <= j < r.value ==> !OccursAt(s, sep, j)
    ensures r.None? ==> forall j: nat :: from <= j ==> !OccursAt(s, sep, j)
    decreases |s| - from
  {
    if from + |sep| > |s| then None
    else if s[from..from + |sep|] == sep then Some(from)
    else FindFrom(s, sep, from + 1)
  }

  /** `s.split(sep)`: the pieces between the non-overlapping occurrences of
      `sep` found by scanning left to right. */
  function Split(s: string, sep: string): (parts: seq<string>)
    requires |sep| > 0
    ensures |parts| >= 1
    ensures forall k :: 0 <= k < |parts| ==> !Occurs(parts[k], sep)
    ensures Join(parts, sep) == s
    ensures forall k :: 0 <= k < |parts| - 1 ==> LeftmostCut(parts[k], sep)
    decreases |s|
  {
    match FindFrom(s, sep, 0)
    case None => [s]
    case Some(i) =>
      var rest := Split(s[i + |sep|..], sep);
      FirstPiece(s, sep, i);
      var parts := [s[..i]] + rest;
      assert parts[1..] == rest;
      parts
  }

  /** The text before the first occurrence the scan finds is a piece: it
      holds no separator and is cut at the leftmost occurrence. */
  lemma FirstPiece(s: string, sep: string, i: nat)
    requires |sep| > 0 && FindFrom(s, sep, 0) == Some(i)
    ensures !Occurs(s[..i], sep) && LeftmostCut(s[..i], sep)
    ensures s == s[..i] + sep + s[i + |sep|..]
  {
    PieceBefore(s, sep, i);
  }

  /** The text before the leftmost occurrence, at `i`, holds no separator
      and is cut at the leftmost occurrence. */
  lemma PieceBefore(s: string, sep: string, i: nat)
    requires |sep| > 0 && OccursAt(s, sep, i)
    requires forall j: nat :: j < i ==> !OccursAt(s, sep, j)
    ensures !Occurs(s[..i], sep) && LeftmostCut(s[..i], sep)
    ensures s == s[..i] + sep + s[i + |sep|..]
  {
    var p := s[..i];
    forall j: nat | j + |sep| <= i ensures !OccursAt(p, sep, j) {
      OccursInPrefix(s, p, sep, j);
    }
    var q := p + sep;
    assert q == s[..i + |sep|];
    forall j: nat | j < i ensures !OccursAt(q, sep, j) {
      OccursInPrefix(s, q, sep, j);
    }
  }

  /** An occurrence that fits inside a prefix is seen alike in the prefix
      and in the whole string. */
  lemma OccursInPrefix(s: string, p: string, sep: string, j: nat)
    requires |p| <= |s| && s[..|p|] == p && j + |sep| <= |p|
    ensures OccursAt(p, sep, j) == OccursAt(s, sep, j)
  {
    assert p[j..j + |sep|] == s[j..j + |sep|];
  }

  /** No occurrence of `sep` starts inside `piece` when `piece` is followed
      by the `sep` that ends it: the cut after `piece` is at the leftmost
      occurrence the scan can find. */
  predicate LeftmostCut(piece: string, sep: string) {
    forall j: nat :: j < |piece| ==> !OccursAt(piece + sep, sep, j)
  }

  /** The contract of Split pins its result down: any pieces that hold no
      separator, are each cut at the leftmost occurrence and join back to
      `s` are the pieces Split returns. */
  lemma {:induction false} SplitUnique(s: string, sep: string, parts: seq<string>)
    requires |sep| > 0 && |parts| >= 1
    requires forall k :: 0 <= k < |parts| ==> !Occurs(parts[k], sep)
    requires forall k :: 0 <= k < |parts| - 1 ==> LeftmostCut(parts[k], sep)
    requires Join(parts, sep) == s
    ensures Split(s, sep) == parts
    decreases |parts|
  {
    if |parts| == 1 {
      assert FindFrom(s, sep, 0).None?;
    } else {
      var head, rest := parts[0], Join(parts[1..], sep);
      assert s == head + sep + rest;
      assert OccursAt(s, sep, |head|) by {
        assert s[|head|..|head| + |sep|] == sep;
      }
      forall j: nat | j < |head| ensures !OccursAt(s, sep, j) {
        assert !OccursAt(head + sep, sep, j);
        assert s[j..j + |sep|] == (head + sep)[j..j + |sep|];
      }
      assert FindFrom(s, sep, 0) == Some(|head|);
      assert s[|head| + |sep|..] == rest && s[..|head|] == head;
      SplitUnique(rest, sep, parts[1..]);
    }
  }

  /** Where occurrences overlap, the scan takes the leftmost one and skips
      past it: `"aaa".split("aa")` is `["", "a"]`, and `["a", ""]`, which
      also joins back to `"aaa"`, is ruled out by its first cut. */
  lemma SplitOverlapping()
    ensures Split("aaa", "aa") == ["", "a"]
    ensures !LeftmostCut("a", "aa")
  {
    assert !Occurs("a", "aa");
    assert Join(["", "a"], "aa") == "aaa";
    SplitUnique("aaa", "aa", ["", "a"]);
    assert OccursAt("a" + "aa", "aa", 0);
  }

  /** `sep.join(parts)`. */
  function Join(parts: seq<string>, sep: string): string
    decreases |parts|
  {
    if parts == [] then ""
    else if |parts| == 1 then parts[0]
    else parts[0] + sep + Join(parts[1..], sep)
  }

  /** Joining with `sep` puts `sep` immediately before the last piece. */
  lemma {:induction false} JoinEndsWithLast(parts: seq<string>, sep: string, s: string)
    requires |parts| >= 2 && Join(parts, sep) == s
    ensures var t := parts[|parts| - 1];
      |sep| + |t| <= |s| && s[|s| - |sep| - |t|..] == sep + t
    decreases |parts|
  {
    var t := parts[|parts| - 1];
    if |parts| > 2 {
      var s' := Join(parts[1..], sep);
      JoinEndsWithLast(parts[1..], sep, s');
      assert s == parts[0] + sep + s';
      assert s[|s| - |sep| - |t|..] == s'[|s'| - |sep| - |t|..];
    } else {
      assert s == parts[0] + sep + t;
      assert s[|s| - |sep| - |t|..] == sep + t;
    }
  }

  /** A string holding the separator is found to hold it by the scan. */
  lemma FindFromOccurs(s: string, sep: string)
    requires Occurs(s, sep)
    ensures FindFrom(s, sep, 0).Some?
  {
    var i: nat :| i <= |s| && OccursAt(s, sep, i);
  }

  lemma SplitTwoOrMore(s: string, sep: string)
    requires |sep| > 0 && Occurs(s, sep)
    ensures |Split(s, sep)| >= 2
  {
    FindFromOccurs(s, sep);
    var i := FindFrom(s, sep, 0).value;
    assert Split(s, sep) == [s[..i]] + Split(s[i + |sep|..], sep);
  }

  /** A string holding the separator splits into two pieces or more, and
      ends with the separator followed by the last piece. */
  lemma {:induction false} SplitEndsWithSeparatorAndLast(s: string, sep: string)
    requires |sep| > 0 && Occurs(s, sep)
    ensures var parts := Split(s, sep); var t := parts[|parts| - 1];
      |parts| >= 2 && |sep| + |t| <= |s| && s[|s| - |sep| - |t|..] == sep + t
  {
    SplitTwoOrMore(s, sep);
    JoinEndsWithLast(Split(s, sep), sep, s);
  }

  /** A string without the separator is a single piece. */
  lemma SplitWithoutSeparator(s: string, sep: string)
    requires |sep| > 0 && !Occurs(s, sep)
    ensures Split(s, sep) == [s]
  {
    assert FindFrom(s, sep, 0).None?;
  }

  /** `url.split(Marker)[-1]`: the text after the last marker the
      left-to-right scan finds, or the whole URL when there is none. The
      text taken holds no marker; with a marker present it directly follows
      one and runs to the end of the URL. When two markers overlap, these
      clauses alone allow more than one text; the value is then fixed by
      Split's contract (see SplitUnique), whose last piece is taken. */
  function AfterMarker(url: string): (t: string)
    ensures !Occurs(url, Marker) ==> t == url
    ensures Occurs(url, Marker) ==>
      |Marker| + |t| <= |url| && url[|url| - |Marker| - |t|..] == Marker + t
    ensures !Occurs(t, Marker)
  {
    var parts := Split(url, Marker);
    if Occurs(url, Marker) then
      SplitEndsWithSeparatorAndLast(url, Marker);
      parts[|parts| - 1]
    else
      SplitWithoutSeparator(url, Marker);
      parts[|parts| - 1]
  }

  /** The key removed from the bucket when a report is deleted
      (`hapus_laporan`): nothing when the report has no photo or an empty
      photo URL, otherwise `uploads/` followed by the text after the
      marker. */
  function RemovedKey(foto: Option<string>): (key: Option<string>)
    ensures key.None? <==> foto.None? || foto.value == ""
    ensures key.Some? ==> key.value == "uploads/" + AfterMarker(foto.value)
  {
    match foto
    case None => None
    case Some(url) => if url == "" then None else Some("uploads/" + AfterMarker(url))
  }

  /** The key an upload stores its photo under, given the already sanitised
      file name. */
  function UploadKey(stored: string): (key: string)
    ensures |key| == |Bucket| + 1 + |stored|
    ensures key[..|Bucket| + 1] == Bucket + "/" && key[|Bucket| + 1..] == stored
  {
    "uploads/" + stored
  }

  /** The public URL the object store hands out for a key in the bucket:
      the project URL, the public-object path, the bucket and the key. */
  function PublicUrl(base: string, key: string): (url: string)
    ensures url == base + Marker + key
  {
    base + "/storage/v1/object/public/" + Bucket + "/" + key
  }

  /** A sanitised file name holds no `/`, so the key built from it holds no
      marker: any marker would put a `/` eight places after its first one. */
  lemma {:induction false} UploadKeyHasNoMarker(stored: string)
    requires '/' !in stored
    ensures !Occurs(UploadKey(stored), Marker)
  {
    var k := UploadKey(stored);
    forall j: nat | j + |Marker| <= |k| ensures !OccursAt(k, Marker, j) {
      assert k[j + 8] == stored[j] != '/';
      assert k[j..j + |Marker|][8] != Marker[8];
    }
  }

  /** When `sep` first occurs right after `head` and `tail` holds no `sep`,
      splitting `head + sep + tail` gives back `head` and `tail`. */
  lemma {:induction false} SplitAround(head: string, sep: string, tail: string)
    requires |sep| > 0
    requires LeftmostCut(head, sep)
    requires !Occurs(tail, sep)
    ensures Split(head + sep + tail, sep) == [head, tail]
  {
    var s := head + sep + tail;
    forall j: nat | j < |head| ensures !OccursAt(s, sep, j) {
      assert !OccursAt(head + sep, sep, j);
      assert s[j..j + |sep|] == (head + sep)[j..j + |sep|];
    }
    assert OccursAt(s, sep, |head|);
    assert FindFrom(s, sep, 0) == Some(|head|);
    assert s[|head| + |sep|..] == tail;
    assert FindFrom(tail, sep, 0).None?;
    assert s[..|head|] == head;
  }

  /** The scan over the public URL of an uploaded photo stops at the marker
      that follows the project URL, provided no marker starts inside the
      project URL. */
  lemma {:induction false} AfterMarkerOfPublicUrl(base: string, stored: string)
    requires LeftmostCut(base, Marker)
    requires '/' !in stored
    ensures AfterMarker(PublicUrl(base, UploadKey(stored))) == UploadKey(stored)
  {
    UploadKeyHasNoMarker(stored);
    SplitAround(base, Marker, UploadKey(stored));
  }

  /** As written, deleting a report whose photo was uploaded by this
      application removes `uploads/uploads/<name>`, not the stored key
      `uploads/<name>`: the extracted text already starts with `uploads/`. */
  lemma {:induction false} RemovedKeyMissesUpload(base: string, stored: string)
    requires LeftmostCut(base, Marker)
    requires '/' !in stored
    ensures RemovedKey(Some(PublicUrl(base, UploadKey(stored)))) == Some("uploads/" + UploadKey(stored))
    ensures RemovedKey(Some(PublicUrl(base, UploadKey(stored)))) != Some(UploadKey(stored))
  {
    AfterMarkerOfPublicUrl(base, stored);
    assert |"uploads/" + UploadKey(stored)| != |UploadKey(stored)|;
  }

  /** The corrected rule: the text after the marker is already the object
      key, so it is removed as it is. */
  function RemovedKeyFixed(foto: Option<string>): (key: Option<string>)
    ensures key.None? <==> foto.None? || foto.value == ""
    ensures key.Some? ==> key.value == AfterMarker(foto.value)
  {
    match foto
    case None => None
    case Some(url) => if url == "" then None else Some(AfterMarker(url))
  }

  /** With the corrected rule, deleting a report removes exactly the key its
      photo was uploaded under. */
  lemma {:induction false} RemovedKeyFixedMatchesUpload(base: string, stored: string)
    requires LeftmostCut(base, Marker)
    requires '/' !in stored
    ensures RemovedKeyFixed(Some(PublicUrl(base, UploadKey(stored)))) == Some(UploadKey(stored))
  {
    AfterMarkerOfPublicUrl(base, stored);
  }
}
