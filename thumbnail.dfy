/** The image-address rewrite `src.replace('thumb_', '')`: every occurrence of
    the thumbnail marker, found left to right without overlaps, is deleted. */
module Thumbnail {
  import opened Sequences

  const Marker: string := "thumb_"

  /** The marker occurs in s starting at i. */
  predicate MarkerAt(s: string, i: nat) {
    i + |Marker| <= |s| && s[i..i + |Marker|] == Marker
  }

  /** The rewrite as a left-to-right scan: at each position either a whole
      marker is skipped or one character is kept. */
  function RemoveMarkers(s: string): (r: string)
    ensures |r| <= |s|
    decreases |s|
  {
    if |s| < |Marker| then s
    else if s[..|Marker|] == Marker then RemoveMarkers(s[|Marker|..])
    else [s[0]] + RemoveMarkers(s[1..])
  }

  /** The leftmost marker at or after `from`, as `str.find` reports it. */
  function FindMarker(s: string, from: nat): (r: Option<nat>)
    requires from <= |s|
    ensures r.None? ==> forall j :: from <= j <= |s| ==> !MarkerAt(s, j)
    ensures r.Some? ==>
      from <= r.value && MarkerAt(s, r.value) && forall j :: from <= j < r.value ==> !MarkerAt(s, j)
    decreases |s| - from
  {
    if from == |s| then None
    else if MarkerAt(s, from) then Some(from)
    else FindMarker(s, from + 1)
  }

  /** The rewrite as the library performs it: find the next marker, copy
      what precedes it, and continue just past it. Each marker found takes
      its whole length off the rest of the address. */
  function ReplaceFrom(s: string, pos: nat): (r: string)
    requires pos <= |s|
    ensures |r| <= |s| - pos
    ensures FindMarker(s, pos).Some? ==> |r| <= |s| - pos - |Marker|
    decreases |s| - pos
  {
    match FindMarker(s, pos)
    case None => s[pos..]
    case Some(k) => s[pos..k] + ReplaceFrom(s, k + |Marker|)
  }

  /** The scan and the find-and-copy algorithm agree on every input. */
  lemma ScanAgreesWithFind(s: string)
    ensures RemoveMarkers(s) == ReplaceFrom(s, 0)
  {
    ScanAgreesFrom(s, 0);
    assert s[0..] == s;
  }

  lemma {:induction false} ScanAgreesFrom(s: string, pos: nat)
    requires pos <= |s|
    ensures RemoveMarkers(s[pos..]) == ReplaceFrom(s, pos)
    decreases |s| - pos
  {
    var found := FindMarker(s, pos);
    if found.None? {
      ScanWithoutMarker(s, pos);
    } else {
      var k := found.value;
      ScanAgreesFrom(s, k + |Marker|);
      ScanToMarker(s, pos, k);
    }
  }

  /** With no marker at or after pos, both copy the rest as it is. */
  lemma ScanWithoutMarker(s: string, pos: nat)
    requires pos <= |s| && FindMarker(s, pos).None?
    ensures RemoveMarkers(s[pos..]) == ReplaceFrom(s, pos)
  {
    assert ReplaceFrom(s, pos) == s[pos..];
    CopyUntil(s, pos, |s|);
    assert s[pos..|s|] == s[pos..] && s[|s|..] == [];
  }

  /** With the next marker at k, both copy s[pos..k] and drop the marker;
      given that they agree past it, they agree from pos. */
  lemma ScanToMarker(s: string, pos: nat, k: nat)
    requires pos <= |s| && FindMarker(s, pos) == Some(k)
    requires RemoveMarkers(s[k + |Marker|..]) == ReplaceFrom(s, k + |Marker|)
    ensures RemoveMarkers(s[pos..]) == ReplaceFrom(s, pos)
  {
    assert ReplaceFrom(s, pos) == s[pos..k] + ReplaceFrom(s, k + |Marker|);
    CopyUntil(s, pos, k);
    SkipMarker(s, k);
  }

  /** Where a marker starts at k, the scan drops it and goes on past it. */
  lemma SkipMarker(s: string, k: nat)
    requires MarkerAt(s, k)
    ensures RemoveMarkers(s[k..]) == RemoveMarkers(s[k + |Marker|..])
  {
    var rest := s[k..];
    assert rest[..|Marker|] == s[k..k + |Marker|];
    assert rest[|Marker|..] == s[k + |Marker|..];
  }

  /** Where no marker starts in [pos, k), the scan copies s[pos..k] unchanged. */
  lemma {:induction false} CopyUntil(s: string, pos: nat, k: nat)
    requires pos <= k <= |s|
    requires forall j :: pos <= j < k ==> !MarkerAt(s, j)
    ensures RemoveMarkers(s[pos..]) == s[pos..k] + RemoveMarkers(s[k..])
    decreases k - pos
  {
    if pos < k {
      var t := s[pos..];
      assert RemoveMarkers(t) == [s[pos]] + RemoveMarkers(s[pos + 1..]) by {
        assert !MarkerAt(s, pos);
        KeepFirst(s, pos);
      }
      CopyUntil(s, pos + 1, k);
      assert s[pos..k] == [s[pos]] + s[pos + 1..k];
      AppendAssoc([s[pos]], s[pos + 1..k], RemoveMarkers(s[k..]));
    }
  }

  /** Where no marker starts at pos, the scan keeps s[pos] and goes on. */
  lemma KeepFirst(s: string, pos: nat)
    requires pos < |s| && !MarkerAt(s, pos)
    ensures RemoveMarkers(s[pos..]) == [s[pos]] + RemoveMarkers(s[pos + 1..])
  {
    var t := s[pos..];
    if |t| >= |Marker| {
      assert t[..|Marker|] == s[pos..pos + |Marker|];
    }
    assert t[1..] == s[pos + 1..];
  }

  /** An address is left unchanged exactly when it holds no marker. */
  lemma {:induction false} UnchangedIffNoMarker(s: string)
    ensures RemoveMarkers(s) == s <==> forall j :: 0 <= j <= |s| ==> !MarkerAt(s, j)
    decreases |s|
  {
    if forall j :: 0 <= j <= |s| ==> !MarkerAt(s, j) {
      CopyUntil(s, 0, |s|);
      assert s[0..] == s && s[0..|s|] == s && s[|s|..] == [];
    } else {
      var j :| 0 <= j <= |s| && MarkerAt(s, j);
      ShorterWithMarker(s, j);
    }
  }

  /** Removing a marker that is present shortens the address. */
  lemma {:induction false} ShorterWithMarker(s: string, j: nat)
    requires MarkerAt(s, j)
    ensures |RemoveMarkers(s)| < |s|
    decreases |s|
  {
    if s[..|Marker|] != Marker {
      assert j != 0;
      var t := s[1..];
      assert t[j - 1..j - 1 + |Marker|] == s[j..j + |Marker|];
      ShorterWithMarker(t, j - 1);
    }
  }

  /** The first three characters a marker needs. */
  lemma MarkerChars(s: string, j: nat)
    ensures MarkerAt(s, j) ==> s[j] == 't' && s[j + 1] == 'h' && s[j + 2] == 'u'
  {
    if MarkerAt(s, j) {
      assert s[j..j + |Marker|][0] == s[j] && s[j..j + |Marker|][1] == s[j + 1];
      assert s[j..j + |Marker|][2] == s[j + 2];
    }
  }

  /** A string without the letter 'h' holds no marker and is left as it is. */
  lemma {:induction false} WithoutH(s: string)
    requires 'h' !in s
    ensures RemoveMarkers(s) == s
  {
    forall j | 0 <= j <= |s| ensures !MarkerAt(s, j) {
      MarkerChars(s, j);
      if j + 1 < |s| {
        assert s[j + 1] in s;
      }
    }
    UnchangedIffNoMarker(s);
  }

  /** A string that starts with the marker loses it. */
  lemma SkipLeadingMarker(s: string)
    requires |s| >= |Marker| && s[..|Marker|] == Marker
    ensures RemoveMarkers(s) == RemoveMarkers(s[|Marker|..])
  {
  }

  /** A prefix in which no marker starts is copied as it is. */
  lemma CopyPrefix(p: string, t: string)
    requires forall j :: 0 <= j < |p| ==> !MarkerAt(p + t, j)
    ensures RemoveMarkers(p + t) == p + RemoveMarkers(t)
  {
    CopyUntil(p + t, 0, |p|);
    assert (p + t)[0..] == p + t;
    assert (p + t)[0..|p|] == p;
    assert (p + t)[|p|..] == t;
  }

  /** No marker starts inside "https://x/", the host part of the example. */
  lemma ExampleHostHasNoMarker(p: string, t: string)
    requires p == "https://x/" && t == "thumb_abc.jpg"
    ensures forall j :: 0 <= j < |p| ==> !MarkerAt(p + t, j)
  {
    var head, tail := "ttps://x/t", "humb_abc.jpg";
    var s := "h" + head + tail;
    assert s == p + t;
    assert 'h' !in head;
    forall j | 0 <= j < 10 ensures !MarkerAt(s, j) {
      MarkerChars(s, j);
      assert s[j + 1] == head[j];
      assert head[j] in head;
    }
  }

  /** A string made of the marker and then h-free text loses just the marker. */
  lemma LeadingMarkerOnly(t: string, u: string)
    requires t == Marker + u && 'h' !in u
    ensures RemoveMarkers(t) == u
  {
    assert t[..|Marker|] == Marker;
    SkipLeadingMarker(t);
    assert t[|Marker|..] == u;
    WithoutH(u);
  }

  /** An address made of a marker-free host part p, then the marker, then
      h-free text u, is rewritten to p + u. */
  lemma RewriteParts(s: string, p: string, t: string, u: string)
    requires s == p + t && t == Marker + u && 'h' !in u
    requires forall j :: 0 <= j < |p| ==> !MarkerAt(p + t, j)
    ensures RemoveMarkers(s) == p + u
  {
    LeadingMarkerOnly(t, u);
    CopyPrefix(p, t);
  }

  /** How the example address splits into host, marker and file name. */
  lemma ExampleParts(s: string, p: string, t: string, u: string)
    requires s == "https://x/thumb_abc.jpg"
    requires p == "https://x/" && t == "thumb_abc.jpg" && u == "abc.jpg"
    ensures s == p + t && t == Marker + u && 'h' !in u
    ensures p + u == "https://x/abc.jpg"
  {
  }

  /** The documented rewrite of a thumbnail address to the full-size one. */
  lemma RewriteExample(s: string)
    requires s == "https://x/thumb_abc.jpg"
    ensures RemoveMarkers(s) == "https://x/abc.jpg"
  {
    var p, t, u := "https://x/", "thumb_abc.jpg", "abc.jpg";
    ExampleParts(s, p, t, u);
    ExampleHostHasNoMarker(p, t);
    RewriteParts(s, p, t, u);
  }

  /** The rewrite is not idempotent: removing the inner marker of
      "ththumb_umb_" joins its halves into a new marker, which survives. */
  lemma NotIdempotent(s: string)
    requires s == "ththumb_umb_"
    ensures RemoveMarkers(s) == "thumb_"
    ensures RemoveMarkers(RemoveMarkers(s)) != RemoveMarkers(s)
  {
    var p, t, u := "th", "thumb_umb_", "umb_";
    assert s == p + t;
    assert RemoveMarkers(t) == u by {
      assert t == Marker + u;
      LeadingMarkerOnly(t, u);
    }
    assert RemoveMarkers(p + t) == p + RemoveMarkers(t) by {
      MarkerChars(p + t, 0);
      MarkerChars(p + t, 1);
      CopyPrefix(p, t);
    }
    assert p + u == "thumb_";
    var m := "thumb_";
    assert RemoveMarkers(m) == [] by {
      assert m[..|Marker|] == Marker;
      SkipLeadingMarker(m);
      assert m[|Marker|..] == [];
    }
  }
}
