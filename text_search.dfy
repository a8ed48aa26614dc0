/** Bounded substring search with the semantics of Python's `str.find(sub, start, end)`:
    the slice bounds are adjusted the way Python adjusts slice indices (a negative
    bound counts from the end of the text, then is clamped to the text), and a match
    must lie wholly inside the adjusted window. */
module TextSearch {

  /** `sub` occurs in `txt` at index `i`. */
  predicate OccursAt(txt: string, sub: string, i: int)
  {
    0 <= i && i + |sub| <= |txt| && MatchesFrom(txt, sub, i, 0)
  }

  /** The characters of `sub` from index `k` on agree with those of `txt` from `i + k` on. */
  predicate MatchesFrom(txt: string, sub: string, i: nat, k: nat)
    requires i + |sub| <= |txt|
    decreases |sub| - k
  {
    k >= |sub| || (txt[i + k] == sub[k] && MatchesFrom(txt, sub, i, k + 1))
  }

  /** The character-wise match is the slice comparison. */
  lemma {:induction false} MatchesFromSlice(txt: string, sub: string, i: nat, k: nat)
    requires i + |sub| <= |txt| && k <= |sub|
    ensures MatchesFrom(txt, sub, i, k) <==> txt[i + k..i + |sub|] == sub[k..]
    decreases |sub| - k
  {
    if k < |sub| {
      MatchesFromSlice(txt, sub, i, k + 1);
      assert txt[i + k..i + |sub|] == [txt[i + k]] + txt[i + k + 1..i + |sub|];
      assert sub[k..] == [sub[k]] + sub[k + 1..];
    }
  }

  /** An occurrence is a slice of the text equal to `sub`. */
  lemma OccursAtSlice(txt: string, sub: string, i: int)
    ensures OccursAt(txt, sub, i) <==> 0 <= i && i + |sub| <= |txt| && txt[i..i + |sub|] == sub
  {
    if 0 <= i && i + |sub| <= |txt| {
      MatchesFromSlice(txt, sub, i, 0);
    }
  }

  /** A one-character string occurs exactly where that character stands. */
  lemma OccursAtChar(txt: string, c: char, i: int)
    ensures OccursAt(txt, [c], i) <==> 0 <= i < |txt| && txt[i] == c
  {
    if 0 <= i < |txt| {
      assert MatchesFrom(txt, [c], i, 1);
    }
  }

  /** A character missing from a stretch of the text occurs at no index of it. */
  lemma CharAbsentFromSlice(txt: string, c: char, a: int, b: int)
    requires 0 <= a <= b <= |txt| && c !in txt[a..b]
    ensures forall j :: a <= j < b ==> !OccursAt(txt, [c], j)
  {
    forall j | a <= j < b ensures !OccursAt(txt, [c], j) {
      OccursAtChar(txt, c, j);
      assert txt[a..b][j - a] == txt[j];
    }
  }

  /** `sub` occurs somewhere in `txt` (Python's `sub in txt`). */
  ghost predicate Contains(txt: string, sub: string)
  {
    exists i :: OccursAt(txt, sub, i)
  }

  /** The start of a slice `[lo:...]` of a text of length `n`, as Python adjusts it. */
  function SliceStart(lo: int, n: nat): nat
  {
    if lo >= 0 then lo else if lo + n >= 0 then lo + n else 0
  }

  /** The end of a slice `[...:hi]` of a text of length `n`, as Python adjusts it. */
  function SliceEnd(hi: int, n: nat): (e: nat)
    ensures e <= n
  {
    if hi > n then n else if hi >= 0 then hi else if hi + n >= 0 then hi + n else 0
  }

  /** An occurrence of `sub` at `i` would lie wholly inside the window `txt[lo:hi]`. */
  predicate InWindow(txt: string, sub: string, lo: int, hi: int, i: int)
  {
    SliceStart(lo, |txt|) <= i && i + |sub| <= SliceEnd(hi, |txt|)
  }

  /** No occurrence of `sub` lies wholly inside the window `txt[lo:hi]`. */
  ghost predicate Absent(txt: string, sub: string, lo: int, hi: int)
  {
    forall j :: InWindow(txt, sub, lo, hi, j) ==> !OccursAt(txt, sub, j)
  }

  /** `p` is the first occurrence of `sub` inside the window `txt[lo:hi]`. */
  ghost predicate FirstAt(txt: string, sub: string, lo: int, hi: int, p: int)
  {
    && InWindow(txt, sub, lo, hi, p)
    && OccursAt(txt, sub, p)
    && forall j :: SliceStart(lo, |txt|) <= j < p ==> !OccursAt(txt, sub, j)
  }

  /** Left-to-right scan from index `i` for a match ending at or before `end`. */
  function FindFrom(txt: string, sub: string, i: nat, end: nat): (r: int)
    requires end <= |txt|
    ensures r == -1 || (i <= r && r + |sub| <= end && OccursAt(txt, sub, r))
    decreases end - i
  {
    if i + |sub| > end then -1
    else if MatchesFrom(txt, sub, i, 0) then i
    else FindFrom(txt, sub, i + 1, end)
  }

  /** The scan reports -1 only when no match lies between `i` and `end`, and otherwise
      reports the leftmost match. */
  lemma {:induction false} FindFromFirst(txt: string, sub: string, i: nat, end: nat)
    requires end <= |txt|
    ensures FindFrom(txt, sub, i, end) == -1 ==>
              forall j :: i <= j && j + |sub| <= end ==> !OccursAt(txt, sub, j)
    ensures forall j :: i <= j < FindFrom(txt, sub, i, end) ==> !OccursAt(txt, sub, j)
    decreases end - i
  {
    if i + |sub| > end {
    } else if MatchesFrom(txt, sub, i, 0) {
    } else {
      FindFromFirst(txt, sub, i + 1, end);
    }
  }

  /** Python's `txt.find(sub, lo, hi)`: the lowest index of a match inside the
      window, or -1 when there is none. */
  function Find(txt: string, sub: string, lo: int, hi: int): (r: int)
    ensures r == -1 || (InWindow(txt, sub, lo, hi, r) && OccursAt(txt, sub, r))
  {
    FindFrom(txt, sub, SliceStart(lo, |txt|), SliceEnd(hi, |txt|))
  }

  /** `Find` reports -1 exactly when the window holds no occurrence, and otherwise the
      first occurrence in the window. */
  lemma FindSpec(txt: string, sub: string, lo: int, hi: int)
    ensures Find(txt, sub, lo, hi) == -1 <==> Absent(txt, sub, lo, hi)
    ensures Find(txt, sub, lo, hi) != -1 ==> FirstAt(txt, sub, lo, hi, Find(txt, sub, lo, hi))
  {
    FindFromFirst(txt, sub, SliceStart(lo, |txt|), SliceEnd(hi, |txt|));
  }

  /** The first occurrence inside the window is exactly what `Find` returns. */
  lemma FindIsFirst(txt: string, sub: string, lo: int, hi: int, p: int)
    requires FirstAt(txt, sub, lo, hi, p)
    ensures Find(txt, sub, lo, hi) == p
  {
    FindSpec(txt, sub, lo, hi);
    assert InWindow(txt, sub, lo, hi, p) && OccursAt(txt, sub, p);
  }

  /** Searching the whole text finds `sub` exactly when it occurs in the text. */
  lemma FindWholeText(txt: string, sub: string)
    ensures Find(txt, sub, 0, |txt|) != -1 <==> Contains(txt, sub)
  {
    FindSpec(txt, sub, 0, |txt|);
    if Contains(txt, sub) {
      var i :| OccursAt(txt, sub, i);
      assert InWindow(txt, sub, 0, |txt|, i);
    }
  }

  /** Searching a whole text for a one-character string is a membership test. */
  lemma FindChar(s: string, c: char)
    ensures Find(s, [c], 0, |s|) != -1 <==> c in s
  {
    var r := Find(s, [c], 0, |s|);
    FindSpec(s, [c], 0, |s|);
    if c in s {
      var i :| 0 <= i < |s| && s[i] == c;
      OccursAtChar(s, c, i);
      assert InWindow(s, [c], 0, |s|, i);
    }
    if r != -1 {
      OccursAtChar(s, c, r);
    }
  }

  /** A text that lacks one of the characters of `sub` holds no occurrence of it. */
  lemma FindMissingChar(txt: string, sub: string, lo: int, hi: int, k: int)
    requires 0 <= k < |sub| && sub[k] !in txt
    ensures Find(txt, sub, lo, hi) == -1
  {
    FindSpec(txt, sub, lo, hi);
    forall j | InWindow(txt, sub, lo, hi, j) ensures !OccursAt(txt, sub, j) {
      OccursAtSlice(txt, sub, j);
      if 0 <= j && j + |sub| <= |txt| {
        assert txt[j..j + |sub|][k] == txt[j + k];
      }
    }
  }

  /** An occurrence inside a slice of a text is an occurrence in the text itself. */
  lemma OccursInSlice(txt: string, sub: string, a: nat, b: nat, j: int)
    requires a <= b <= |txt|
    requires OccursAt(txt[a..b], sub, j)
    ensures OccursAt(txt, sub, a + j) && a + j + |sub| <= b
  {
    OccursAtSlice(txt[a..b], sub, j);
    assert 0 <= j && j + |sub| <= b - a;
    forall k | 0 <= k < |sub| ensures txt[a + j + k] == sub[k] {
      assert txt[a..b][j..j + |sub|][k] == sub[k];
    }
    assert txt[a + j..a + j + |sub|] == sub;
    OccursAtSlice(txt, sub, a + j);
  }
}
