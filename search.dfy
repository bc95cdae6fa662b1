/** Leftmost occurrence search over strings: the primitive behind the two regular expressions of the page extractor. */
module TextSearch {
  import opened Wrappers

  /** `pat` occurs in `s` starting at index `i`. */
  predicate At(s: string, pat: string, i: nat)
  {
    i + |pat| <= |s| && s[i..i + |pat|] == pat
  }

  /** The first index at or after `from` where `pat` occurs. */
  function Find(s: string, pat: string, from: nat): (r: Option<nat>)
    ensures r.Some? ==> from <= r.value && At(s, pat, r.value)
    ensures r.Some? ==> forall k :: from <= k < r.value ==> !At(s, pat, k)
    ensures r.None? ==> forall k :: from <= k ==> !At(s, pat, k)
    decreases |s| - from
  {
    if from + |pat| > |s| then None
    else if At(s, pat, from) then Some(from)
    else Find(s, pat, from + 1)
  }

  /** The first index at or after `from` holding the character `c`. */
  function FindChar(s: string, c: char, from: nat): (r: Option<nat>)
    ensures r.Some? ==> from <= r.value < |s| && s[r.value] == c
    ensures r.Some? ==> forall k :: from <= k < r.value ==> s[k] != c
    ensures r.None? ==> forall k :: from <= k < |s| ==> s[k] != c
    decreases |s| - from
  {
    if from >= |s| then None
    else if s[from] == c then Some(from)
    else FindChar(s, c, from + 1)
  }

  /** `pat` occurs nowhere in `s`. */
  predicate Absent(s: string, pat: string)
  {
    forall k: nat :: k <= |s| ==> !At(s, pat, k)
  }

  /** The first character of `pat` occurs nowhere else in it. */
  predicate HeadUnique(pat: string)
  {
    |pat| > 0 && forall i :: 0 < i < |pat| ==> pat[i] != pat[0]
  }

  /** An occurrence with none before it, from `from` on, is the one Find reports. */
  lemma FindReturnsFirst(s: string, pat: string, from: nat, at: nat)
    requires from <= at && At(s, pat, at)
    requires forall k: nat :: from <= k < at ==> !At(s, pat, k)
    ensures Find(s, pat, from) == Some(at)
  {
  }

  /**
    When `pat` is absent from `a` and `b` begins with the first character of
    `pat`, which occurs only there in `pat`, no occurrence in `p + a + b`
    starts within `a`.
  */
  lemma NoneInside(p: string, a: string, b: string, pat: string)
    requires HeadUnique(pat) && |b| > 0 && b[0] == pat[0]
    requires Absent(a, pat)
    ensures forall k: nat :: |p| <= k < |p| + |a| ==> !At(p + a + b, pat, k)
  {
    forall k: nat | |p| <= k < |p| + |a| && At(p + a + b, pat, k) ensures false {
      var k' := k - |p|;
      assert (p + a + b)[k..k + |pat|] == (a + b)[k'..k' + |pat|];
      NoStraddle(a, b, pat, k');
    }
  }

  /** Past a stretch `a` free of `pat`, the first occurrence is the one `b` begins with. */
  lemma FirstAfterAbsent(p: string, a: string, b: string, pat: string)
    requires HeadUnique(pat) && Absent(a, pat) && At(b, pat, 0)
    ensures Find(p + a + b, pat, |p|) == Some(|p| + |a|)
  {
    ClearStretch(p, a, b, pat);
    FindAfterStretch(p, a, b, pat);
  }

  /** `b` holds `pat` at its start, and no occurrence in `p + a + b` starts within `a`. */
  lemma ClearStretch(p: string, a: string, b: string, pat: string)
    requires HeadUnique(pat) && Absent(a, pat) && At(b, pat, 0)
    ensures At(p + a + b, pat, |p| + |a|)
    ensures forall k: nat :: |p| <= k < |p| + |a| ==> !At(p + a + b, pat, k)
  {
    AtAfter(p + a, b, pat);
    InsideOccurrence(b, pat, 0, 0);
    NoneInside(p, a, b, pat);
  }

  /** FindReturnsFirst for a search that starts at `|p|` and crosses the stretch `a`. */
  lemma FindAfterStretch(p: string, a: string, b: string, pat: string)
    requires At(p + a + b, pat, |p| + |a|)
    requires forall k: nat :: |p| <= k < |p| + |a| ==> !At(p + a + b, pat, k)
    ensures Find(p + a + b, pat, |p|) == Some(|p| + |a|)
  {
    FindReturnsFirst(p + a + b, pat, |p|, |p| + |a|);
  }

  /**
    In `head + open + body + close + tail`, with `open` absent from `head`
    and `close` absent from `body`, the first `open` is the one after `head`
    and the first `close` after it is the one after `body`.
  */
  lemma FirstDelimited(head: string, open: string, body: string, close: string, tail: string)
    requires HeadUnique(open) && HeadUnique(close)
    requires Absent(head, open) && Absent(body, close)
    ensures Find(head + open + body + close + tail, open, 0) == Some(|head|)
    ensures Find(head + open + body + close + tail, close, |head| + |open|) == Some(|head| + |open| + |body|)
  {
    OpensAfter(head, open, body + close + tail);
    AssociateFive(head, open, body, close, tail);
    AtStart(close, tail);
    FirstAfterAbsent(head + open, body, close + tail, close);
  }

  /** The first `open` in `head + open + rest` is the one after `head`. */
  lemma OpensAfter(head: string, open: string, rest: string)
    requires HeadUnique(open) && Absent(head, open)
    ensures Find(head + (open + rest), open, 0) == Some(|head|)
  {
    AtStart(open, rest);
    FirstAfterAbsent("", head, open + rest, open);
    assert "" + head + (open + rest) == head + (open + rest);
  }

  /**
    The two groupings of five strings used by FirstDelimited are one string;
    kept apart so that FirstDelimited's own proof does not rediscover it.
  */
  lemma AssociateFive(head: string, open: string, body: string, close: string, tail: string)
    ensures head + (open + (body + close + tail)) == head + open + body + close + tail
    ensures (head + open) + body + (close + tail) == head + open + body + close + tail
  {
  }

  /** A string that begins with `pat` holds it at index 0. */
  lemma AtStart(pat: string, rest: string)
    ensures At(pat + rest, pat, 0)
  {
    assert (pat + rest)[..|pat|] == pat;
  }

  /** An occurrence at the start of `b` is one in `q + b` at `|q|`. */
  lemma AtAfter(q: string, b: string, pat: string)
    requires At(b, pat, 0)
    ensures At(q + b, pat, |q|)
  {
    assert (q + b)[|q|..] == b;
  }

  /** A string without the first character of `pat` holds no occurrence of `pat`. */
  lemma LacksHeadAbsent(s: string, pat: string)
    requires |pat| > 0 && Lacks(s, pat[0])
    ensures Absent(s, pat)
  {
    forall k: nat | k <= |s| && At(s, pat, k) ensures false {
      InsideOccurrence(s, pat, k, k);
    }
  }

  /** `c` does not occur in `s`. */
  predicate Lacks(s: string, c: char)
  {
    c !in s
  }

  /** Inside an occurrence, the string holds the pattern's own characters. */
  lemma InsideOccurrence(s: string, pat: string, k: nat, j: nat)
    requires At(s, pat, k) && k <= j < k + |pat|
    ensures s[j] == pat[j - k]
  {
    assert s[k..k + |pat|][j - k] == s[j];
  }

  /**
    A pattern whose first character occurs nowhere else in it cannot start
    inside `a` and run on into `b` when `b` begins with that character:
    every occurrence in `a + b` before `|a|` lies wholly within `a`.
  */
  lemma NoStraddle(a: string, b: string, pat: string, k: nat)
    requires |pat| > 0 && |b| > 0 && b[0] == pat[0]
    requires forall i :: 0 < i < |pat| ==> pat[i] != pat[0]
    requires k < |a| && At(a + b, pat, k)
    ensures At(a, pat, k)
  {
    if k + |pat| > |a| {
      InsideOccurrence(a + b, pat, k, |a|);
      assert false;
    } else {
      assert (a + b)[k..k + |pat|] == a[k..k + |pat|];
    }
  }
}
