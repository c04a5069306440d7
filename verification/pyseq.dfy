/** Python list indexing and slicing semantics: negative indices count from
    the end, slice bounds are clamped, and slice assignment may change the
    length of the list. */
module PySeq {
  import opened Results

  /** Normalises a slice bound the way Python does for a list of length `len`. */
  function ClampIndex(i: int, len: nat): (r: nat)
    ensures r <= len
    ensures 0 <= i <= len ==> r == i
  {
    if i < 0 then (if i + len < 0 then 0 else i + len)
    else if i > len then len
    else i
  }

  /** `s[i:j]`. */
  function Slice<T>(s: seq<T>, i: int, j: int): (r: seq<T>)
    ensures 0 <= i <= j <= |s| ==> r == s[i..j]
    ensures |r| <= |s|
  {
    var a := ClampIndex(i, |s|);
    var b := ClampIndex(j, |s|);
    if a <= b then s[a..b] else []
  }

  /** `s[i:j] = data` for non-negative `i <= j`: the elements between the
      clamped bounds are replaced by `data`, whatever its length. */
  function SliceAssign<T>(s: seq<T>, i: nat, j: nat, data: seq<T>): (r: seq<T>)
    requires i <= j
    ensures j <= |s| ==> r == s[..i] + data + s[j..]
    ensures j <= |s| && j - i == |data| ==> |r| == |s|
  {
    var a := ClampIndex(i, |s|);
    var b := ClampIndex(j, |s|);
    s[..a] + data + s[b..]
  }

  /** Assigning a two-element list to a two-element slice overwrites the two
      positions in place. */
  lemma SliceAssignPair<T>(s: seq<T>, i: nat, data: seq<T>)
    requires i + 2 <= |s| && |data| == 2
    ensures SliceAssign(s, i, i + 2, data) == s[i := data[0]][i + 1 := data[1]]
  {
    var r := SliceAssign(s, i, i + 2, data);
    assert r == s[..i] + data + s[i + 2..];
    forall k | 0 <= k < |s|
      ensures r[k] == s[i := data[0]][i + 1 := data[1]][k]
    {
      if k < i {
        assert r[k] == s[..i][k];
      } else if k < i + 2 {
        assert r[k] == data[k - i];
      } else {
        assert r[k] == s[i + 2..][k - i - 2];
      }
    }
  }

  /** The position `s[i]` refers to, or IndexError. */
  function Index(i: int, len: nat): (r: Result<nat>)
    ensures r.Ok? <==> -(len as int) <= i < len
    ensures r.Ok? ==> r.value < len
    ensures 0 <= i < len ==> r == Ok(i)
  {
    if 0 <= i < len then Ok(i)
    else if -(len as int) <= i < 0 then Ok(len + i)
    else Err(IndexError)
  }
}
