/** The image-payload step shared by both renderers: the PNG data-URI marker is cut out of the
    field text, and what remains is handed to the decoder. */
module ImagePayload {
  import opened Wrappers
  import opened Records

  /** The only scheme marker that is recognised; other prefixes stay part of the payload. */
  const PngMarker: string := "data:image/png;base64,"

  /** A decoded raster, as it is staged for embedding in a document. */
  datatype Image = Image(bytes: seq<bv8>)

  /** The decoder: base64 decoding, opening the bytes as an image and staging it for the
      document. It is foreign code, so the model takes it as a parameter and assumes nothing
      about it beyond being a function: `None` is any failure on the way. */
  type Decoder = string -> Option<Image>

  /** `p` occurs in `s` starting at index `i`. */
  predicate IsAt(s: string, p: string, i: nat)
  {
    i + |p| <= |s| && s[i..i + |p|] == p
  }

  /** `p` occurs somewhere in `s`. */
  ghost predicate Contains(s: string, p: string)
  {
    exists i: nat :: IsAt(s, p, i)
  }

  /** Python's `s.replace(p, "")`: scanning left to right, every occurrence of `p` met is cut out
      and the scan resumes after it; every other character is kept in order. */
  function RemoveAll(s: string, p: string): (r: string)
    requires |p| > 0
    ensures |r| <= |s|
    decreases |s|
  {
    if |s| < |p| then s
    else if s[..|p|] == p then RemoveAll(s[|p|..], p)
    else [s[0]] + RemoveAll(s[1..], p)
  }

  /** An occurrence one position further into `s` is an occurrence in `s[1..]`, and back. */
  lemma IsAtShift(s: string, p: string, j: nat)
    requires |s| > 0
    ensures IsAt(s, p, j + 1) <==> IsAt(s[1..], p, j)
  {
    if j + 1 + |p| <= |s| {
      assert s[1..][j..j + |p|] == s[j + 1..j + 1 + |p|];
    }
  }

  /** The index of the leftmost occurrence of `p` in `s`, if there is one. */
  function Find(s: string, p: string): (r: Option<nat>)
    requires |p| > 0
    ensures r.Some? ==> IsAt(s, p, r.value)
    ensures r.Some? ==> forall j: nat :: j < r.value ==> !IsAt(s, p, j)
    ensures r.None? <==> !Contains(s, p)
    decreases |s|
  {
    if |s| < |p| then None
    else if s[..|p|] == p then Some(0)
    else
      match Find(s[1..], p)
      case None =>
        assert !Contains(s, p) by {
          forall j: nat ensures !IsAt(s, p, j) {
            if j > 0 { IsAtShift(s, p, j - 1); }
          }
        }
        None
      case Some(i) =>
        assert IsAt(s, p, i + 1) && forall j: nat :: j < i + 1 ==> !IsAt(s, p, j) by {
          IsAtShift(s, p, i);
          forall j: nat | 0 < j < i + 1 ensures !IsAt(s, p, j) {
            IsAtShift(s, p, j - 1);
          }
        }
        Some(i + 1)
  }

  /** The reference definition of removal: find the leftmost occurrence, keep what comes before
      it, drop the occurrence and continue after it. */
  function RemoveByFind(s: string, p: string): string
    requires |p| > 0
    decreases |s|
  {
    match Find(s, p)
    case None => s
    case Some(i) => s[..i] + RemoveByFind(s[i + |p|..], p)
  }

  /** Text without any occurrence of `p` is left as it is. */
  lemma {:induction false} RemoveAllWithoutOccurrence(s: string, p: string)
    requires |p| > 0
    requires !Contains(s, p)
    ensures RemoveAll(s, p) == s
    decreases |s|
  {
    if |s| >= |p| {
      assert !IsAt(s, p, 0);
      assert !Contains(s[1..], p) by {
        forall j: nat ensures !IsAt(s[1..], p, j) {
          IsAtShift(s, p, j);
        }
      }
      RemoveAllWithoutOccurrence(s[1..], p);
      assert [s[0]] + s[1..] == s;
    }
  }

  /** Splitting off the first character of a non-empty prefix. */
  lemma ConsPrefix(s: string, i: nat)
    requires 0 < i <= |s|
    ensures [s[0]] + s[1..][..i - 1] == s[..i]
  {
  }

  lemma AppendAssoc(a: string, b: string, c: string)
    ensures a + (b + c) == (a + b) + c
  {
  }

  /** When the leftmost occurrence of `p` starts at `i`, removal keeps `s[..i]` and continues
      after that occurrence. */
  lemma {:induction false} RemoveAllSkipsToFirst(s: string, p: string, i: nat)
    requires |p| > 0
    requires IsAt(s, p, i)
    requires forall j: nat :: j < i ==> !IsAt(s, p, j)
    ensures RemoveAll(s, p) == s[..i] + RemoveAll(s[i + |p|..], p)
    decreases i
  {
    if i == 0 {
      assert s[..|p|] == p;
    } else {
      assert s[..|p|] != p by { assert !IsAt(s, p, 0); }
      var t := s[1..];
      IsAtShift(s, p, i - 1);
      forall j: nat | j < i - 1 ensures !IsAt(t, p, j) {
        IsAtShift(s, p, j);
      }
      assert RemoveAll(s, p) == [s[0]] + RemoveAll(t, p);
      RemoveAllSkipsToFirst(t, p, i - 1);
      var rest := RemoveAll(s[i + |p|..], p);
      assert t[i - 1 + |p|..] == s[i + |p|..];
      assert RemoveAll(t, p) == t[..i - 1] + rest;
      assert RemoveAll(s, p) == [s[0]] + (t[..i - 1] + rest);
      ConsPrefix(s, i);
      AppendAssoc([s[0]], t[..i - 1], rest);
    }
  }

  /** The character scan and the find-based reference definition agree on every input. */
  lemma {:induction false} RemoveAllMatchesFind(s: string, p: string)
    requires |p| > 0
    ensures RemoveAll(s, p) == RemoveByFind(s, p)
    decreases |s|
  {
    match Find(s, p)
    case None =>
      RemoveAllWithoutOccurrence(s, p);
    case Some(i) =>
      RemoveAllSkipsToFirst(s, p, i);
      RemoveAllMatchesFind(s[i + |p|..], p);
  }

  /** Removal changes the text exactly when `p` occurs in it. */
  lemma RemoveAllUnchangedIff(s: string, p: string)
    requires |p| > 0
    ensures RemoveAll(s, p) == s <==> !Contains(s, p)
  {
    match Find(s, p)
    case None =>
      RemoveAllWithoutOccurrence(s, p);
    case Some(i) =>
      RemoveAllSkipsToFirst(s, p, i);
      assert |RemoveAll(s, p)| < |s|;
  }

  /** The marker removal the renderers apply to an image field's text. */
  function StripMarker(s: string): string
  {
    RemoveAll(s, PngMarker)
  }

  /** A payload without the PNG marker, bare base64 or one with another scheme prefix, reaches
      the decoder unchanged; one with the marker anywhere in it does not. */
  lemma StripMarkerUnchangedIff(s: string)
    ensures StripMarker(s) == s <==> !Contains(s, PngMarker)
  {
    RemoveAllUnchangedIff(s, PngMarker);
  }

  /** Every occurrence of the marker is cut, not only a leading one: the text before the first
      occurrence is kept and stripping continues after it. */
  lemma StripMarkerAtFirstOccurrence(s: string, i: nat)
    requires Find(s, PngMarker) == Some(i)
    ensures StripMarker(s) == s[..i] + StripMarker(s[i + |PngMarker|..])
    ensures |StripMarker(s)| < |s|
  {
    RemoveAllSkipsToFirst(s, PngMarker, i);
  }

  /** A leading marker is removed. */
  lemma StripMarkerLeading(s: string)
    ensures StripMarker(PngMarker + s) == StripMarker(s)
  {
    var t := PngMarker + s;
    assert t[..|PngMarker|] == PngMarker;
    assert t[|PngMarker|..] == s;
  }

  /** What the decoder receives for a field value: the marker-stripped text of a string value;
      a value that is not a string fails, as `.replace` is not defined on it. */
  function Payload(v: Value): Option<string>
  {
    match v
    case Str(t) => Some(StripMarker(t))
    case NonStr(_) => None
  }

  /** The image a field value decodes to, or `None` when any step fails. */
  function DecodeField(v: Value, decode: Decoder): Option<Image>
  {
    match Payload(v)
    case Some(text) => decode(text)
    case None => None
  }
}
