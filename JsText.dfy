/** The small part of JavaScript's value and string semantics that the
    scraping scripts rely on: undefined / null / string values, truthiness,
    String.prototype.trim, indexOf, includes and replace with a string
    pattern. Strings are sequences of Unicode scalar values. */
module JsText {

  datatype Option<T> = None | Some(value: T)

  datatype Result<T, E> = Success(value: T) | Failure(error: E)

  /** A field value as the page scripts produce it. */
  datatype JsValue = Undefined | Null | Str(s: string)

  /** JavaScript truthiness on these values: only a non-empty string is truthy. */
  predicate Truthy(v: JsValue) {
    v.Str? && v.s != ""
  }

  /** The WhiteSpace and LineTerminator code points of ECMA-262, which
      String.prototype.trim strips (space separators as of Unicode 15). */
  predicate IsJsSpace(c: char) {
    || c == '\t' || c == '\U{B}' || c == '\U{C}' || c == ' '
    || c == '\U{A0}' || c == '\U{FEFF}' || c == '\U{1680}'
    || ('\U{2000}' <= c <= '\U{200A}')
    || c == '\U{202F}' || c == '\U{205F}' || c == '\U{3000}'
    || c == '\n' || c == '\r' || c == '\U{2028}' || c == '\U{2029}'
  }

  /** A string that trim leaves as it is: no white space at either end. */
  predicate Trimmed(s: string) {
    s == [] || (!IsJsSpace(s[0]) && !IsJsSpace(s[|s| - 1]))
  }

  predicate AllSpace(s: string) {
    forall i :: 0 <= i < |s| ==> IsJsSpace(s[i])
  }

  /** The index of the first character at or after `k` that is not white
      space (|s| when there is none): where trim's result begins. */
  function TrimStartIndex(s: string, k: nat): (r: nat)
    requires k <= |s|
    ensures k <= r <= |s|
    decreases |s| - k
  {
    if k < |s| && IsJsSpace(s[k]) then TrimStartIndex(s, k + 1) else k
  }

  /** Everything the start index skips is white space, and it stops at
      the end or at a character that is not. */
  lemma {:induction false} TrimStartIndexSkipsSpace(s: string, k: nat)
    requires k <= |s|
    ensures forall i :: k <= i < TrimStartIndex(s, k) ==> IsJsSpace(s[i])
    ensures TrimStartIndex(s, k) == |s| || !IsJsSpace(s[TrimStartIndex(s, k)])
    decreases |s| - k
  {
    if k < |s| && IsJsSpace(s[k]) {
      TrimStartIndexSkipsSpace(s, k + 1);
    }
  }

  /** The end of `s[lo..hi]` once its trailing white space is dropped:
      where trim's result ends. */
  function TrimEndIndex(s: string, lo: nat, hi: nat): (r: nat)
    requires lo <= hi <= |s|
    ensures lo <= r <= hi
    decreases hi - lo
  {
    if lo < hi && IsJsSpace(s[hi - 1]) then TrimEndIndex(s, lo, hi - 1) else hi
  }

  /** Everything the end index drops is white space, and it stops at `lo`
      or just after a character that is not. */
  lemma {:induction false} TrimEndIndexSkipsSpace(s: string, lo: nat, hi: nat)
    requires lo <= hi <= |s|
    ensures forall i :: TrimEndIndex(s, lo, hi) <= i < hi ==> IsJsSpace(s[i])
    ensures TrimEndIndex(s, lo, hi) == lo || !IsJsSpace(s[TrimEndIndex(s, lo, hi) - 1])
    decreases hi - lo
  {
    if lo < hi && IsJsSpace(s[hi - 1]) {
      TrimEndIndexSkipsSpace(s, lo, hi - 1);
    }
  }

  /** String.prototype.trim: the part of `s` between its leading and its
      trailing white space. */
  function Trim(s: string): (r: string)
    ensures Trimmed(r)
    ensures |r| <= |s|
  {
    var b := TrimStartIndex(s, 0);
    TrimStartIndexSkipsSpace(s, 0);
    TrimEndIndexSkipsSpace(s, b, |s|);
    s[b..TrimEndIndex(s, b, |s|)]
  }

  /** The start index is the only one with white space before it and
      none at it. */
  lemma {:induction false} TrimStartIndexIs(s: string, k: nat, j: nat)
    requires k <= j <= |s|
    requires forall i :: k <= i < j ==> IsJsSpace(s[i])
    requires j == |s| || !IsJsSpace(s[j])
    ensures TrimStartIndex(s, k) == j
    decreases j - k
  {
    if k < j {
      assert IsJsSpace(s[k]);
      TrimStartIndexIs(s, k + 1, j);
    }
  }

  /** The end index is the only one with white space after it and none
      just before it. */
  lemma {:induction false} TrimEndIndexIs(s: string, lo: nat, e: nat, hi: nat)
    requires lo <= e <= hi <= |s|
    requires forall i :: e <= i < hi ==> IsJsSpace(s[i])
    requires e == lo || !IsJsSpace(s[e - 1])
    ensures TrimEndIndex(s, lo, hi) == e
    decreases hi - e
  {
    if e < hi {
      assert IsJsSpace(s[hi - 1]);
      TrimEndIndexIs(s, lo, e, hi - 1);
    }
  }

  /** Trim removes exactly the white space around the trimmed core:
      a string made of white space, a trimmed middle and white space
      trims to that middle. */
  lemma TrimOfPadded(p: string, m: string, q: string)
    requires AllSpace(p) && AllSpace(q) && Trimmed(m)
    ensures Trim(p + m + q) == m
  {
    var s := p + m + q;
    assert forall i :: 0 <= i < |p| ==> s[i] == p[i];
    assert forall i :: |p| + |m| <= i < |s| ==> s[i] == q[i - |p| - |m|];
    if m == [] {
      TrimStartIndexIs(s, 0, |s|);
      TrimEndIndexIs(s, |s|, |s|, |s|);
    } else {
      assert s[|p|] == m[0] && s[|p| + |m| - 1] == m[|m| - 1];
      TrimStartIndexIs(s, 0, |p|);
      TrimEndIndexIs(s, |p|, |p| + |m|, |s|);
      assert s[|p|..|p| + |m|] == m;
    }
  }

  /** A string without white space at either end is left as it is. */
  lemma TrimOfTrimmed(t: string)
    requires Trimmed(t)
    ensures Trim(t) == t
  {
    assert [] + t + [] == t;
    TrimOfPadded([], t, []);
  }

  /** Trimming is idempotent. */
  lemma TrimIdempotent(s: string)
    ensures Trim(Trim(s)) == Trim(s)
  {
    TrimOfTrimmed(Trim(s));
  }

  /** `pat` occurs in `s` starting at index `i`. */
  predicate MatchesAt(s: string, pat: string, i: nat) {
    i + |pat| <= |s| && forall d :: 0 <= d < |pat| ==> s[i + d] == pat[d]
  }

  /** String.prototype.indexOf(pat, k): the first index not below `k` where
      `pat` occurs, or None where JavaScript answers -1. The scripts only
      search from 0; for an empty `pat` and `k > |s|` JavaScript clamps
      `k` and answers `|s|`, which this function does not model. */
  function IndexOfFrom(s: string, pat: string, k: nat): (r: Option<nat>)
    ensures r.Some? ==> k <= r.value && MatchesAt(s, pat, r.value)
    ensures r.Some? ==> forall j :: k <= j < r.value ==> !MatchesAt(s, pat, j)
    ensures r.None? ==> forall j :: k <= j ==> !MatchesAt(s, pat, j)
    decreases |s| - k
  {
    if k + |pat| > |s| then None
    else if MatchesAt(s, pat, k) then Some(k)
    else IndexOfFrom(s, pat, k + 1)
  }

  function IndexOf(s: string, pat: string): Option<nat> {
    IndexOfFrom(s, pat, 0)
  }

  /** String.prototype.includes. */
  function Includes(s: string, pat: string): (b: bool)
    ensures b <==> exists i: nat :: MatchesAt(s, pat, i)
  {
    var r := IndexOf(s, pat);
    assert r.Some? ==> MatchesAt(s, pat, r.value);
    r.Some?
  }

  /** String.prototype.replace with a string pattern: only the first
      occurrence of `pat` is replaced. The replacement is inserted
      literally; the `$`-patterns JavaScript expands in it (`$&`, `$$`,
      `` $` ``, `$'`) are not modelled, which agrees with JavaScript for
      the empty replacement the scripts pass. */
  function ReplaceFirst(s: string, pat: string, rep: string): (r: string)
    ensures !Includes(s, pat) ==> r == s
    ensures Includes(s, pat) ==> |r| + |pat| == |s| + |rep|
  {
    match IndexOf(s, pat)
    case None => s
    case Some(i) => s[..i] + rep + s[i + |pat|..]
  }

  /** Replacing a pattern that the string starts with removes that
      prefix and nothing else, even if it occurs again later. */
  lemma ReplaceFirstOfPrefixed(pat: string, x: string)
    ensures ReplaceFirst(pat + x, pat, "") == x
  {
    var s := pat + x;
    assert MatchesAt(s, pat, 0);
    assert s[..0] + "" + s[|pat|..] == x;
  }

  /** indexOf finds `j` when `pat` occurs at `j` and at no index from
      `k` up to `j`. */
  lemma {:induction false} IndexOfFromIs(s: string, pat: string, k: nat, j: nat)
    requires k <= j && MatchesAt(s, pat, j)
    requires forall i :: k <= i < j ==> !MatchesAt(s, pat, i)
    ensures IndexOfFrom(s, pat, k) == Some(j)
    decreases j - k
  {
    if k < j {
      assert !MatchesAt(s, pat, k);
      IndexOfFromIs(s, pat, k + 1, j);
    }
  }

  /** An occurrence of `pat` in `a + pat + b` that starts inside `a` is
      an occurrence in `a + pat`. */
  lemma NoMatchInPrefix(a: string, pat: string, b: string)
    requires forall j: nat :: j < |a| ==> !MatchesAt(a + pat, pat, j)
    ensures forall j: nat :: j < |a| ==> !MatchesAt(a + pat + b, pat, j)
  {
    var s := a + pat + b;
    forall j: nat | j < |a| && MatchesAt(s, pat, j)
      ensures MatchesAt(a + pat, pat, j)
    {
      forall d | 0 <= d < |pat| ensures (a + pat)[j + d] == pat[d] {
        assert s[j + d] == (a + pat)[j + d];
      }
    }
  }

  /** The occurrence replaced is the leftmost one: what precedes it is
      kept and contains no earlier occurrence. */
  lemma ReplaceFirstLeftmost(a: string, pat: string, b: string)
    requires forall j: nat :: j < |a| ==> !MatchesAt(a + pat, pat, j)
    ensures ReplaceFirst(a + pat + b, pat, "") == a + b
  {
    var s := a + pat + b;
    assert MatchesAt(s, pat, |a|) by {
      forall d | 0 <= d < |pat| ensures s[|a| + d] == pat[d] {
      }
    }
    NoMatchInPrefix(a, pat, b);
    IndexOfFromIs(s, pat, 0, |a|);
    assert s[..|a|] == a;
    assert s[|a| + |pat|..] == b;
  }

  /** `f` applied to every element of `xs` together with its 1-based
      position, in order: `xs.map((x, i) => f(x, i + 1))`. */
  function Numbering<A, B>(f: (A, nat) -> B, xs: seq<A>): (r: seq<B>)
    ensures |r| == |xs|
    decreases |xs|
  {
    if xs == [] then []
    else
      var n := |xs| - 1;
      Numbering(f, xs[..n]) + [f(xs[n], n + 1)]
  }

  /** Element `i` of the numbering is `f` of element `i` and `i + 1`. */
  lemma {:induction false} NumberingAt<A, B>(f: (A, nat) -> B, xs: seq<A>, i: nat)
    requires i < |xs|
    ensures Numbering(f, xs)[i] == f(xs[i], i + 1)
    decreases |xs|
  {
    var n := |xs| - 1;
    if i < n {
      NumberingAt(f, xs[..n], i);
    }
  }
}
