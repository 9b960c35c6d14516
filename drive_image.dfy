// The image-address helper shared by the category page and the search
// results: a Google Drive sharing link becomes a direct-download link, any
// other Drive address becomes the placeholder, everything else is kept.

module DriveImage {
  import opened Optional
  import opened Text

  /** What a product's `image` field holds: text, or something else
      (missing, null, a number) that is not a string. */
  datatype ImageSource = Address(text: string) | NotText

  const Placeholder := "/placeholder.jpg"
  const FilePrefix := "/file/d/"
  const ViewSuffix := "/view"
  const DirectPrefix := "https://drive.google.com/uc?export=view&id="
  const DriveHost := "drive.google.com"

  /** The characters the regular-expression `.` does not match. */
  predicate IsLineTerminator(c: char)
  {
    c == '\n' || c == '\r' || c == '\U{2028}' || c == '\U{2029}'
  }

  /** `/\/file\/d\/(.+?)\/view/` matches at `i` with its group ending at `j`:
      the prefix at `i`, a non-empty group of non-terminators, then the suffix. */
  predicate MatchAt(s: string, i: nat, j: nat)
  {
    OccursAt(s, FilePrefix, i) && i + 8 < j && OccursAt(s, ViewSuffix, j)
    && forall k :: i + 8 <= k < j ==> !IsLineTerminator(s[k])
  }

  /** The lazy group: from a candidate end `j`, the first end at which the
      suffix follows, given that the characters before `j - 1` are matched. */
  function GroupEnd(s: string, i: nat, j: nat): (r: Option<nat>)
    requires OccursAt(s, FilePrefix, i) && i + 8 < j <= |s|
    requires forall k :: i + 8 <= k < j - 1 ==> !IsLineTerminator(s[k])
    ensures r.Some? ==> j <= r.value && MatchAt(s, i, r.value)
                        && forall e: nat :: j <= e < r.value ==> !MatchAt(s, i, e)
    ensures r.None? ==> forall e: nat :: j <= e ==> !MatchAt(s, i, e)
    decreases |s| - j
  {
    if j + 5 > |s| then None
    else if IsLineTerminator(s[j - 1]) then None
    else if OccursAt(s, ViewSuffix, j) then Some(j)
    else GroupEnd(s, i, j + 1)
  }

  /** The leftmost match at or after `i`, with its shortest group. */
  function FirstMatch(s: string, i: nat): (r: Option<(nat, nat)>)
    ensures r.Some? ==> var (a, b) := r.value;
      i <= a && MatchAt(s, a, b)
      && (forall a': nat, b': nat :: i <= a' < a ==> !MatchAt(s, a', b'))
      && (forall b': nat :: b' < b ==> !MatchAt(s, a, b'))
    ensures r.None? ==> forall a': nat, b': nat :: i <= a' ==> !MatchAt(s, a', b')
    decreases |s| - i
  {
    if i + 9 > |s| then None
    else if OccursAt(s, FilePrefix, i) then
      match GroupEnd(s, i, i + 9)
      case Some(j) => Some((i, j))
      case None => FirstMatch(s, i + 1)
    else FirstMatch(s, i + 1)
  }

  /** The group the regular expression captures, when it matches. */
  function DriveId(s: string): (r: Option<string>)
    ensures r.None? <==> forall a: nat, b: nat :: !MatchAt(s, a, b)
    ensures r.Some? ==> r.value != [] && exists a: nat, b: nat :: MatchAt(s, a, b) && r.value == s[a + 8..b]
  {
    match FirstMatch(s, 0)
    case Some((a, b)) => Some(s[a + 8..b])
    case None => None
  }

  /** The address an `<img>` is given for a product's image field. */
  function ImageUrl(src: ImageSource): (r: string)
    ensures (src.NotText? || src.text == "") ==> r == Placeholder
    ensures src.Address? && src.text != "" && DriveId(src.text).Some? ==>
      r == DirectPrefix + DriveId(src.text).value
    ensures src.Address? && src.text != "" && DriveId(src.text).None? ==>
      r == (if Contains(src.text, DriveHost) then Placeholder else src.text)
  {
    match src
    case NotText => Placeholder
    case Address(s) =>
      if s == "" then Placeholder
      else match DriveId(s)
        case Some(id) => DirectPrefix + id
        case None => if Contains(s, DriveHost) then Placeholder else s
  }

  /** An address that is not a Drive address and has no `/file/d/` in it
      reaches the page unchanged. */
  lemma OtherAddressKept(s: string)
    requires s != "" && !Contains(s, DriveHost)
    requires forall i :: !OccursAt(s, FilePrefix, i)
    ensures ImageUrl(Address(s)) == s
  {
  }

  const SharePrefix := "https://drive.google.com/file/d/"

  /** Within a sharing link, `/file/d/` occurs no earlier than where the
      link's own path puts it: only one 'f' precedes it. */
  lemma NoEarlierFilePrefix(s: string)
    requires |s| >= |SharePrefix| && s[..|SharePrefix|] == SharePrefix
    ensures forall a: nat :: a < |SharePrefix| - |FilePrefix| ==> !OccursAt(s, FilePrefix, a)
  {
    forall a: nat | a < |SharePrefix| - |FilePrefix|
      ensures !OccursAt(s, FilePrefix, a)
    {
      assert forall k | 0 <= k <= 24 :: SharePrefix[k] != 'f';
      assert s[a + 1] == SharePrefix[a + 1] != FilePrefix[1];
    }
  }

  /** A Drive sharing link `…/file/d/<id>/view…` becomes the direct link for
      `<id>`, for an id without `/` or line terminators. */
  lemma ShareLinkBecomesDirect(id: string, rest: string)
    requires id != []
    requires forall k :: 0 <= k < |id| ==> id[k] != '/' && !IsLineTerminator(id[k])
    ensures ImageUrl(Address(SharePrefix + id + ViewSuffix + rest)) == DirectPrefix + id
  {
    var s := SharePrefix + id + ViewSuffix + rest;
    var start := |SharePrefix| - |FilePrefix|;
    var end := |SharePrefix| + |id|;
    ShareLinkMatches(id, rest, s, start, end);
    NoEarlierFilePrefix(s);
    match FirstMatch(s, 0)
    case Some((a, b)) =>
      assert a == start && b == end;
    case None =>
      assert false;
  }

  /** The sharing link matches with the whole id as its group, and with no
      shorter group from the same start. */
  lemma ShareLinkMatches(id: string, rest: string, s: string, start: nat, end: nat)
    requires id != []
    requires forall k :: 0 <= k < |id| ==> id[k] != '/' && !IsLineTerminator(id[k])
    requires s == SharePrefix + id + ViewSuffix + rest
    requires start == |SharePrefix| - |FilePrefix| && end == |SharePrefix| + |id|
    ensures |SharePrefix| <= |s| && s[..|SharePrefix|] == SharePrefix
    ensures MatchAt(s, start, end)
    ensures forall b: nat :: b < end ==> !MatchAt(s, start, b)
    ensures s[start + 8..end] == id
  {
    assert s[..|SharePrefix|] == SharePrefix;
    assert s[start..start + 8] == FilePrefix;
    assert s[end..end + 5] == ViewSuffix;
    assert s[|SharePrefix|..end] == id;
    forall b: nat | b < end
      ensures !MatchAt(s, start, b)
    {
      if start + 8 < b {
        assert s[b] == id[b - |SharePrefix|] != ViewSuffix[0];
      }
    }
  }
}
