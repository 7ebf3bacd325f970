/**
 * Counting occurrences of the word "operator".  The C# tokenizer's
 * sanitizing loop runs while its text contains "operator"; its termination
 * and its result rest on the facts here: replacing text by a benign
 * replacement never creates an occurrence, and replacing an occurrence of
 * a pattern that starts with "operator" removes at least one.
 */
module OperatorCount {
  import opened Text

  const Operator := "operator"

  /** Number of positions at which "operator" starts in `s`. */
  function Occ(s: string): nat
    decreases |s|
  {
    if |s| < |Operator| then 0
    else (if s[..|Operator|] == Operator then 1 else 0) + Occ(s[1..])
  }

  lemma OccCons(s: string)
    requires |s| > 0
    ensures Occ(s) == (if StartsWith(s, Operator) then 1 else 0) + Occ(s[1..])
  {
  }

  /** `s` holds "operator" exactly when some occurrence is counted. */
  lemma {:induction false} OccPositive(s: string, i: nat)
    requires OccursAt(s, Operator, i)
    ensures Occ(s) > 0
    decreases i
  {
    if i > 0 {
      assert OccursAt(s[1..], Operator, i - 1) by {
        assert s[1..][i - 1..i - 1 + |Operator|] == s[i..i + |Operator|];
      }
      OccPositive(s[1..], i - 1);
    }
  }

  lemma {:induction false} OccZeroHasNone(s: string, i: nat)
    requires Occ(s) == 0
    ensures !OccursAt(s, Operator, i)
  {
    if OccursAt(s, Operator, i) {
      OccPositive(s, i);
    }
  }

  lemma OccZeroNotContains(s: string)
    requires Occ(s) == 0
    ensures !Contains(s, Operator)
  {
    var r := FindFrom(s, Operator, 0);
    if r.Some? {
      OccZeroHasNone(s, r.value);
    }
  }

  lemma {:induction false} NotContainsOccZero(s: string)
    requires !Contains(s, Operator)
    ensures Occ(s) == 0
    decreases |s|
  {
    if |s| >= |Operator| {
      assert !OccursAt(s, Operator, 0);
      assert !Contains(s[1..], Operator) by {
        var r := FindFrom(s[1..], Operator, 0);
        if r.Some? {
          assert s[r.value + 1..r.value + 1 + |Operator|] == s[1..][r.value..r.value + |Operator|];
          assert OccursAt(s, Operator, r.value + 1);
        }
      }
      NotContainsOccZero(s[1..]);
    }
  }

  /** Dropping a prefix never adds occurrences. */
  lemma {:induction false} OccSuffix(s: string, k: nat)
    requires k <= |s|
    ensures Occ(s[k..]) <= Occ(s)
    decreases k
  {
    if k > 0 {
      OccSuffix(s[1..], k - 1);
      assert s[1..][k - 1..] == s[k..];
    }
  }

  /** Dropping a suffix never adds occurrences. */
  lemma {:induction false} OccPrefix(s: string, n: nat)
    requires n <= |s|
    ensures Occ(s[..n]) <= Occ(s)
    decreases |s|
  {
    if n > 0 && |s[..n]| >= |Operator| {
      assert s[..n][1..] == s[1..][..n - 1];
      assert s[..n][..|Operator|] == s[..|Operator|];
      OccPrefix(s[1..], n - 1);
    }
  }

  lemma OccSlice(s: string, a: nat, b: nat)
    requires a <= b <= |s|
    ensures Occ(s[a..b]) <= Occ(s)
  {
    OccPrefix(s[a..], b - a);
    assert s[a..][..b - a] == s[a..b];
    OccSuffix(s, a);
  }

  /** No occurrence can start inside `x`, whatever follows it. */
  predicate Safe(x: string) {
    forall k :: 0 <= k < |x| && x[k] == 'o' ==> k + 2 < |x| && x[k + 2] != 'e'
  }

  /**
   * A replacement that can neither hold nor complete an occurrence of
   * "operator": it starts with none of the letters that follow an 'o' in
   * the word, and an 'o' at its start is not followed by 'r'.
   */
  predicate Benign(rep: string) {
    && |rep| >= 1
    && rep[0] !in {'p', 'e', 'r', 'a', 't'}
    && Safe(rep)
    && (rep[0] == 'o' ==> rep[1] != 'r')
  }

  /** The proper tails of "operator", from its second letter on. */
  predicate OperatorTail(w: string) {
    w in ["perator", "erator", "rator", "ator", "tor", "or", "r", ""]
  }

  lemma OperatorTailTail(w: string)
    requires OperatorTail(w) && w != ""
    ensures OperatorTail(w[1..])
  {
    if w == "perator" {
      assert w[1..] == "erator";
    } else if w == "erator" {
      assert w[1..] == "rator";
    } else if w == "rator" {
      assert w[1..] == "ator";
    } else if w == "ator" {
      assert w[1..] == "tor";
    } else if w == "tor" {
      assert w[1..] == "or";
    } else if w == "or" {
      assert w[1..] == "r";
    } else {
      assert w[1..] == "";
    }
  }

  lemma StartsWithCons(s: string, w: string)
    requires |s| > 0 && |w| > 0
    ensures StartsWith(s, w) <==> s[0] == w[0] && StartsWith(s[1..], w[1..])
  {
    if StartsWith(s, w) {
      assert s[1..][..|w| - 1] == s[..|w|][1..];
    }
    if s[0] == w[0] && StartsWith(s[1..], w[1..]) {
      assert s[..|w|] == [s[0]] + s[1..][..|w| - 1];
    }
  }

  lemma StartsWithOperator(s: string)
    ensures StartsWith(s, Operator) ==> s[0] == 'o' && s[2] == 'e'
  {
    if StartsWith(s, Operator) {
      assert s[..|Operator|][0] == s[0] && s[..|Operator|][2] == s[2];
    }
  }

  lemma {:induction false} OccAppendSafe(x: string, y: string)
    requires Safe(x)
    ensures Occ(x + y) == Occ(y)
    decreases |x|
  {
    if |x| == 0 {
      assert x + y == y;
    } else {
      OccCons(x + y);
      assert (x + y)[1..] == x[1..] + y;
      assert Safe(x[1..]) by {
        forall k | 0 <= k < |x[1..]| && x[1..][k] == 'o'
          ensures k + 2 < |x[1..]| && x[1..][k + 2] != 'e'
        {
          assert x[k + 1] == 'o';
        }
      }
      OccAppendSafe(x[1..], y);
      StartsWithOperator(x + y);
      assert (x + y)[0] == x[0];
      if x[0] == 'o' {
        assert 2 < |x| && x[2] != 'e';
        assert (x + y)[2] == x[2];
      }

    }
  }

  /** A benign replacement followed by anything never starts with a tail of "operator". */
  lemma RepClashes(rep: string, w: string, x: string)
    requires Benign(rep) && OperatorTail(w) && w != ""
    ensures !StartsWith(rep + x, w)
  {
    StartsWithCons(rep + x, w);
    assert (rep + x)[0] == rep[0];
    if w == "or" && rep[0] == 'o' {
      StartsWithCons((rep + x)[1..], w[1..]);
      assert (rep + x)[1..][0] == rep[1];
    }
  }

  /**
   * If the replaced text starts with a tail of "operator", the original
   * text already started with that tail.
   */
  lemma {:induction false} ReplaceKeepsTail(t: string, p: string, rep: string, w: string)
    requires |p| > 0 && Benign(rep) && OperatorTail(w)
    ensures StartsWith(ReplaceAll(t, p, rep), w) ==> StartsWith(t, w)
    decreases |t|
  {
    if w != "" && |t| >= |p| {
      var r := ReplaceAll(t, p, rep);
      if t[..|p|] == p {
        RepClashes(rep, w, ReplaceAll(t[|p|..], p, rep));
      } else {
        var rest := ReplaceAll(t[1..], p, rep);
        assert r == [t[0]] + rest;
        assert r[1..] == rest;
        OperatorTailTail(w);
        ReplaceKeepsTail(t[1..], p, rep, w[1..]);
        StartsWithCons(r, w);
        StartsWithCons(t, w);
      }
    }
  }

  /** Replace-all with a benign replacement never adds occurrences. */
  lemma {:induction false} OccReplaceAll(s: string, p: string, rep: string)
    requires |p| > 0 && Benign(rep)
    ensures Occ(ReplaceAll(s, p, rep)) <= Occ(s)
    decreases |s|
  {
    if |s| < |p| {
    } else if s[..|p|] == p {
      OccReplaceAll(s[|p|..], p, rep);
      OccAppendSafe(rep, ReplaceAll(s[|p|..], p, rep));
      OccSuffix(s, |p|);
    } else {
      OccReplaceAll(s[1..], p, rep);
      CopyStep(s, p, rep);
    }
  }

  /** Copying the first character adds to the copy no more than it adds to the original. */
  lemma CopyStep(s: string, p: string, rep: string)
    requires |p| > 0 && Benign(rep) && |s| >= |p| && s[..|p|] != p
    ensures Occ(ReplaceAll(s, p, rep)) - Occ(ReplaceAll(s[1..], p, rep)) <= Occ(s) - Occ(s[1..])
  {
    var rest := ReplaceAll(s[1..], p, rep);
    var r := ReplaceAll(s, p, rep);
    assert r == [s[0]] + rest;
    assert r[1..] == rest;
    OccCons(r);
    OccCons(s);
    StartsWithCons(r, Operator);
    StartsWithCons(s, Operator);
    assert OperatorTail(Operator[1..]);
    ReplaceKeepsTail(s[1..], p, rep, Operator[1..]);
  }

  /**
   * Replacing every occurrence of a pattern that begins with "operator",
   * when there is one, removes at least one occurrence of the word.
   */
  lemma {:induction false} OccReplaceAllStrict(s: string, p: string, rep: string, i: nat)
    requires |p| > 0 && Benign(rep) && StartsWith(p, Operator)
    requires OccursAt(s, p, i)
    ensures Occ(ReplaceAll(s, p, rep)) < Occ(s)
    decreases i
  {
    if s[..|p|] == p {
      StrictAtStart(s, p, rep);
    } else {
      OccursInTail(s, p, i);
      OccReplaceAllStrict(s[1..], p, rep, i - 1);
      CopyStep(s, p, rep);
    }
  }

  /** An occurrence that is not at the start is one in the tail. */
  lemma OccursInTail(s: string, p: string, i: nat)
    requires OccursAt(s, p, i) && s[..|p|] != p
    ensures i > 0 && OccursAt(s[1..], p, i - 1)
  {
    assert s[1..][i - 1..i - 1 + |p|] == s[i..i + |p|];
  }

  /** Dropping at least one character drops no more than the first one does. */
  lemma OccAfterFirst(s: string, n: nat)
    requires 1 <= n <= |s|
    ensures Occ(s[n..]) <= Occ(s[1..])
  {
    assert s[1..][n - 1..] == s[n..];
    OccSuffix(s[1..], n - 1);
  }

  /** The case where the text itself starts with the pattern. */
  lemma StrictAtStart(s: string, p: string, rep: string)
    requires |p| > 0 && Benign(rep) && StartsWith(p, Operator)
    requires |p| <= |s| && s[..|p|] == p
    ensures Occ(ReplaceAll(s, p, rep)) < Occ(s)
  {
    var tail := s[|p|..];
    var rest := ReplaceAll(tail, p, rep);
    assert ReplaceAll(s, p, rep) == rep + rest;
    assert Occ(rep + rest) == Occ(rest) by {
      assert Safe(rep);
      OccAppendSafe(rep, rest);
    }
    OccReplaceAll(tail, p, rep);
    OccAfterFirst(s, |p|);
    assert Occ(s) == 1 + Occ(s[1..]) by {
      assert StartsWith(s, Operator) by {
        assert s[..|Operator|] == s[..|p|][..|Operator|];
      }
      OccCons(s);
    }
  }
}
