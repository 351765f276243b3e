// The bold-marker stripper of the reply path: a global regular-expression replace of
// `**(.*?)**` (stars escaped) by its group, as in `text.replace(/\*\*(.*?)\*\*/g, "$1")`.
/*
 * The global replace scans left to right; at each position it tries `**`, then the
 * shortest run of non-line-terminator characters followed by `**`, and on a match
 * emits only that run and resumes after the closing `**`; otherwise it emits one
 * character and moves on.
 */
module Bold {
  import opened Wrappers
  import opened Text

  /** `**` starts at index `k` of `t`. */
  predicate DoubleStarAt(t: string, k: int)
  {
    0 <= k && k + 2 <= |t| && t[k] == '*' && t[k + 1] == '*'
  }

  /** `t[..k]` can be the lazy group `(.*?)`, closed by the `**` at `k`. */
  predicate ClosesAt(t: string, k: int)
  {
    DoubleStarAt(t, k) && forall i | 0 <= i < k :: !IsLineTerminator(t[i])
  }

  /** The lazy match of `(.*?)\*\*` at the start of `t`: the least closing position. */
  function FindClose(t: string): (r: Option<nat>)
    ensures r.Some? ==> ClosesAt(t, r.value) && forall k | 0 <= k < r.value :: !ClosesAt(t, k)
    ensures r.None? ==> forall k: int :: !ClosesAt(t, k)
  {
    if |t| < 2 then None
    else if t[0] == '*' && t[1] == '*' then Some(0)
    else if IsLineTerminator(t[0]) then None
    else
      match FindClose(t[1..])
      case Some(k) =>
        assert ClosesAt(t, k + 1) by { assert forall i | 1 <= i < k + 1 :: t[i] == t[1..][i - 1]; }
        assert forall j | 1 <= j < k + 1 :: !ClosesAt(t, j) by {
          forall j | 1 <= j < k + 1 ensures !ClosesAt(t, j) {
            if ClosesAt(t, j) { assert ClosesAt(t[1..], j - 1); }
          }
        }
        Some(k + 1)
      case None =>
        assert forall k: int :: !ClosesAt(t, k) by {
          forall k: int ensures !ClosesAt(t, k) {
            if k >= 1 && ClosesAt(t, k) { assert ClosesAt(t[1..], k - 1); }
          }
        }
        None
  }

  /** A bold span `**X**` matches at index `i` of `s`. */
  predicate SpanAt(s: string, i: int)
  {
    DoubleStarAt(s, i) && FindClose(s[i + 2..]).Some?
  }

  /** The global replace: every matched `**X**` becomes `X`; each replacement
      removes exactly the four marker characters. */
  function StripBold(s: string): (r: string)
    ensures |r| <= |s|
    ensures (|s| - |r|) % 4 == 0
    decreases |s|
  {
    if SpanAt(s, 0) then
      var k := FindClose(s[2..]).value;
      s[2..2 + k] + StripBold(s[4 + k..])
    else if s == [] then []
    else [s[0]] + StripBold(s[1..])
  }

  /** Any matchable span makes the output at least four characters shorter. */
  lemma {:induction false} StripBoldShortens(s: string, i: int)
    requires SpanAt(s, i)
    ensures |StripBold(s)| <= |s| - 4
    decreases |s|
  {
    if !SpanAt(s, 0) {
      assert i >= 1;
      assert s[1..][i - 1 + 2..] == s[i + 2..];
      StripBoldShortens(s[1..], i - 1);
    }
  }

  /** With no span anywhere, the scan copies `s` character by character. */
  lemma {:induction false} StripBoldCopies(s: string)
    requires forall i: int :: !SpanAt(s, i)
    ensures StripBold(s) == s
    decreases |s|
  {
    if s != [] {
      forall i: int ensures !SpanAt(s[1..], i) {
        if 0 <= i && SpanAt(s[1..], i) {
          assert s[1..][i + 2..] == s[i + 1 + 2..];
          assert SpanAt(s, i + 1);
        }
      }
      StripBoldCopies(s[1..]);
      assert [s[0]] + s[1..] == s;
    }
  }

  /** The replace changes the text exactly when some bold span matches in it. */
  lemma StripBoldUnchangedIff(s: string)
    ensures StripBold(s) == s <==> forall i: int :: !SpanAt(s, i)
  {
    if forall i: int :: !SpanAt(s, i) {
      StripBoldCopies(s);
    } else {
      var i: int :| SpanAt(s, i);
      StripBoldShortens(s, i);
    }
  }

  /** Text with no `**` at all comes out unchanged. */
  lemma NoMarkersUnchanged(s: string)
    requires forall i: int :: !DoubleStarAt(s, i)
    ensures StripBold(s) == s
  {
    StripBoldCopies(s);
  }

  /** After a star-free one-line run `x`, the closing `**` is the first one. */
  lemma FindCloseAfter(x: string, q: string)
    requires '*' !in x
    requires forall i | 0 <= i < |x| :: !IsLineTerminator(x[i])
    ensures FindClose(x + "**" + q) == Some(|x|)
  {
    var t := x + "**" + q;
    assert ClosesAt(t, |x|);
    forall k | 0 <= k < |x| ensures !ClosesAt(t, k) { assert t[k] == x[k]; }
  }

  /** A span at the very start is replaced by its inside. */
  lemma StripBoldLeadingSpan(x: string, q: string)
    requires '*' !in x
    requires forall i | 0 <= i < |x| :: !IsLineTerminator(x[i])
    ensures StripBold("**" + x + "**" + q) == x + StripBold(q)
  {
    var s := "**" + x + "**" + q;
    assert s[2..] == x + "**" + q;
    FindCloseAfter(x, q);
    assert SpanAt(s, 0);
    assert s[2..2 + |x|] == x;
    assert s[4 + |x|..] == q;
  }

  /** A star-free prefix is copied and the `**X**` that follows it is replaced by
      `X` (`X` star-free and on one line); the scan then resumes after the span. */
  lemma {:induction false} StripBoldSpan(p: string, x: string, q: string)
    requires '*' !in p && '*' !in x
    requires forall i | 0 <= i < |x| :: !IsLineTerminator(x[i])
    ensures StripBold(p + "**" + x + "**" + q) == p + x + StripBold(q)
  {
    if p == [] {
      assert p + "**" + x + "**" + q == "**" + x + "**" + q;
      StripBoldLeadingSpan(x, q);
    } else {
      var t := p[1..] + "**" + x + "**" + q;
      assert p + "**" + x + "**" + q == [p[0]] + t;
      StripBoldCopiesFirst(p[0], t);
      StripBoldSpan(p[1..], x, q);
      ConsAppend(p, x, StripBold(q));
    }
  }

  /** Moving the head character of a non-empty prefix out of an append. */
  lemma ConsAppend(p: string, x: string, r: string)
    requires p != []
    ensures [p[0]] + (p[1..] + x + r) == p + x + r
  {
    assert [p[0]] + p[1..] == p;
  }

  /** A character other than `*` cannot open a span and is copied as is. */
  lemma StripBoldCopiesFirst(c: char, t: string)
    requires c != '*'
    ensures StripBold([c] + t) == [c] + StripBold(t)
  {
    var s := [c] + t;
    assert !SpanAt(s, 0);
    assert s[1..] == t;
  }

  /** Two spans separated by star-free text are both unwrapped. */
  lemma StripBoldTwoSpans(p1: string, x1: string, p2: string, x2: string)
    requires '*' !in p1 && '*' !in x1 && '*' !in p2 && '*' !in x2
    requires forall i | 0 <= i < |x1| :: !IsLineTerminator(x1[i])
    requires forall i | 0 <= i < |x2| :: !IsLineTerminator(x2[i])
    ensures StripBold(p1 + "**" + x1 + "**" + p2 + "**" + x2 + "**") == p1 + x1 + p2 + x2
  {
    var q := p2 + "**" + x2 + "**";
    assert StripBold(q) == p2 + x2 by {
      StripBoldLastSpan(p2, x2);
    }
    assert StripBold(p1 + "**" + x1 + "**" + q) == p1 + x1 + (p2 + x2) by {
      StripBoldSpan(p1, x1, q);
    }
    SpanThenRest(p1, x1, p2, x2);
  }

  /** A span at the very end: nothing follows it. */
  lemma StripBoldLastSpan(p: string, x: string)
    requires '*' !in p && '*' !in x
    requires forall i | 0 <= i < |x| :: !IsLineTerminator(x[i])
    ensures StripBold(p + "**" + x + "**") == p + x
  {
    var e: string := [];
    StripBoldSpan(p, x, e);
    assert p + "**" + x + "**" + e == p + "**" + x + "**";
    assert p + x + StripBold(e) == p + x;
  }

  /** Regrouping of the two-span text around its second span, and of its output. */
  lemma SpanThenRest(p1: string, x1: string, p2: string, x2: string)
    ensures p1 + "**" + x1 + "**" + p2 + "**" + x2 + "**" == p1 + "**" + x1 + "**" + (p2 + "**" + x2 + "**")
    ensures p1 + x1 + (p2 + x2) == p1 + x1 + p2 + x2
  {
  }
}
