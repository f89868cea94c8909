/** Instruction lists without duplicates: removal, insertion, and what they leave in place. */
module Lists {
  import opened Graphs

  function Without(code: seq<nat>, i: nat): seq<nat> {
    if code == [] then []
    else
      var rest := Without(code[..|code| - 1], i);
      if code[|code| - 1] == i then rest else rest + [code[|code| - 1]]
  }

  function BeforeLast(code: seq<nat>, i: nat): seq<nat>
    requires |code| > 0
  {
    code[..|code| - 1] + [i] + [code[|code| - 1]]
  }

  /** i placed just before the (last) occurrence of boundary. */
  function InsertBefore(code: seq<nat>, boundary: nat, i: nat): seq<nat> {
    if code == [] then [i]
    else if code[|code| - 1] == boundary then BeforeLast(code, i)
    else InsertBefore(code[..|code| - 1], boundary, i) + [code[|code| - 1]]
  }

  /** In xs, a stands before b. */
  ghost predicate StandsBefore(xs: seq<nat>, a: nat, b: nat) {
    exists i, j :: 0 <= i < j < |xs| && xs[i] == a && xs[j] == b
  }

  lemma StandsBeforeIn(xs: seq<nat>, ys: seq<nat>, a: nat, b: nat)
    requires (a in xs && b in ys) || StandsBefore(xs, a, b) || StandsBefore(ys, a, b)
    ensures StandsBefore(xs + ys, a, b)
  {
    if StandsBefore(xs, a, b) {
      var i, j :| 0 <= i < j < |xs| && xs[i] == a && xs[j] == b;
      assert (xs + ys)[i] == a && (xs + ys)[j] == b;
    } else if StandsBefore(ys, a, b) {
      var i, j :| 0 <= i < j < |ys| && ys[i] == a && ys[j] == b;
      assert (xs + ys)[|xs| + i] == a && (xs + ys)[|xs| + j] == b;
    } else {
      var i :| 0 <= i < |xs| && xs[i] == a;
      var j :| 0 <= j < |ys| && ys[j] == b;
      assert (xs + ys)[i] == a && (xs + ys)[|xs| + j] == b;
    }
  }

  lemma {:induction false} WithoutContents(code: seq<nat>, i: nat, d: nat)
    ensures d in Without(code, i) <==> d in code && d != i
  {
    if code != [] {
      var n := |code| - 1;
      assert code == code[..n] + [code[n]];
      WithoutContents(code[..n], i, d);
    }
  }

  lemma LastOfWithout(code: seq<nat>, i: nat)
    requires code != [] && code[|code| - 1] != i
    ensures Without(code, i) == Without(code[..|code| - 1], i) + [code[|code| - 1]]
    ensures Without(code, i)[|Without(code, i)| - 1] == code[|code| - 1]
    ensures Without(code, i)[..|Without(code, i)| - 1] == Without(code[..|code| - 1], i)
  {
  }

  /** What is left after a removal stands in its old order. */
  lemma {:induction false} WithoutKeepsOrder(code: seq<nat>, x: nat, i: nat, j: nat) returns (p: nat, q: nat)
    requires i < j < |Without(code, x)|
    ensures p < q < |code| && code[p] == Without(code, x)[i] && code[q] == Without(code, x)[j]
  {
    var n := |code| - 1;
    if j < |Without(code[..n], x)| {
      p, q := WithoutKeepsOrder(code[..n], x, i, j);
    } else {
      var a := Without(code[..n], x)[i];
      WithoutContents(code[..n], x, a);
      p :| 0 <= p < n && code[..n][p] == a;
      q := n;
    }
  }

  lemma {:induction false} WithoutAbsent(code: seq<nat>, i: nat)
    requires i !in code
    ensures Without(code, i) == code
  {
    if code != [] {
      WithoutAbsent(code[..|code| - 1], i);
    }
  }

  lemma {:induction false} WithoutAppend(a: seq<nat>, b: seq<nat>, i: nat)
    ensures Without(a + b, i) == Without(a, i) + Without(b, i)
    decreases |b|
  {
    if b == [] {
      assert a + b == a;
    } else {
      var n := |b| - 1;
      assert (a + b)[..|a + b| - 1] == a + b[..n];
      WithoutAppend(a, b[..n], i);
    }
  }

  lemma WithoutAt(code: seq<nat>, i: nat, p: nat)
    requires NoDup(code) && p < |code| && code[p] == i
    ensures Without(code, i) == code[..p] + code[p + 1..]
  {
    assert code == code[..p] + [i] + code[p + 1..];
    WithoutAppend(code[..p] + [i], code[p + 1..], i);
    WithoutAppend(code[..p], [i], i);
    assert Without([i], i) == [] by {
      assert [i][..0] == [];
    }
    WithoutAbsent(code[..p], i);
    WithoutAbsent(code[p + 1..], i);
  }

  lemma BeforeLastContents(code: seq<nat>, i: nat, d: nat)
    requires |code| > 0
    ensures d in BeforeLast(code, i) <==> d in code || d == i
  {
  }

  lemma BeforeLastWithout(code: seq<nat>, i: nat)
    requires |code| > 0 && i !in code
    ensures Without(BeforeLast(code, i), i) == code
  {
    var n := |code| - 1;
    WithoutAppend(code[..n] + [i], [code[n]], i);
    WithoutAppend(code[..n], [i], i);
    WithoutAbsent(code[..n], i);
    WithoutAbsent([code[n]], i);
    assert [i][..0] == [];
  }

  /** How two lists that are equal without i can end. */
  lemma EndsAlike(code1: seq<nat>, k: nat, code2: seq<nat>, m: nat, i: nat)
    requires k <= |code1| && m <= |code2|
    requires Without(code1[..k], i) == Without(code2[..m], i)
    ensures k > 0 && code1[k - 1] == i ==> Without(code1[..k - 1], i) == Without(code2[..m], i)
    ensures m > 0 && code2[m - 1] == i ==> Without(code1[..k], i) == Without(code2[..m - 1], i)
    ensures k > 0 && m > 0 && code1[k - 1] != i && code2[m - 1] != i ==>
              code1[k - 1] == code2[m - 1] && Without(code1[..k - 1], i) == Without(code2[..m - 1], i)
    ensures k == 0 && m > 0 ==> code2[m - 1] == i
    ensures m == 0 && k > 0 ==> code1[k - 1] == i
  {
    if k > 0 {
      assert code1[..k][..k - 1] == code1[..k - 1];
      if code1[k - 1] != i {
        LastOfWithout(code1[..k], i);
      }
    }
    if m > 0 {
      assert code2[..m][..m - 1] == code2[..m - 1];
      if code2[m - 1] != i {
        LastOfWithout(code2[..m], i);
      }
    }
  }

  /** Prefixes k and m grow to k' and m' by i on one side, or by the same element on both. */
  predicate OneMore(code1: seq<nat>, k: nat, code2: seq<nat>, m: nat, i: nat, k': nat, m': nat) {
    && k <= k' <= |code1| && m <= m' <= |code2|
    && (|| (k' == k + 1 && m' == m && code1[k] == i)
        || (k' == k && m' == m + 1 && code2[m] == i)
        || (k' == k + 1 && m' == m + 1 && code1[k] == code2[m]))
  }

  /** The shorter prefixes that prefixes equal without i have grown from. */
  lemma OneLess(code1: seq<nat>, k: nat, code2: seq<nat>, m: nat, i: nat) returns (k0: nat, m0: nat)
    requires k <= |code1| && m <= |code2| && k + m > 0 && Without(code1[..k], i) == Without(code2[..m], i)
    ensures OneMore(code1, k0, code2, m0, i, k, m) && Without(code1[..k0], i) == Without(code2[..m0], i)
  {
    EndsAlike(code1, k, code2, m, i);
    if k > 0 && code1[k - 1] == i {
      k0, m0 := k - 1, m;
    } else if m > 0 && code2[m - 1] == i {
      k0, m0 := k, m - 1;
    } else {
      k0, m0 := k - 1, m - 1;
    }
  }

  lemma WithoutNoDup(code: seq<nat>, i: nat)
    requires NoDup(code)
    ensures NoDup(Without(code, i))
  {
    if i in code {
      var p :| 0 <= p < |code| && code[p] == i;
      WithoutAt(code, i, p);
    } else {
      WithoutAbsent(code, i);
    }
  }

  lemma {:induction false} InsertBeforeAt(a: seq<nat>, boundary: nat, c: seq<nat>, i: nat)
    requires boundary !in c
    ensures InsertBefore(a + [boundary] + c, boundary, i) == a + [i] + [boundary] + c
  {
    var code := a + [boundary] + c;
    if c == [] {
      assert code == a + [boundary];
    } else {
      assert code[..|code| - 1] == a + [boundary] + c[..|c| - 1];
      InsertBeforeAt(a, boundary, c[..|c| - 1], i);
    }
  }

  /** A list splits at the last occurrence of each of its elements. */
  lemma {:induction false} LastOccurrence(code: seq<nat>, x: nat) returns (pre: seq<nat>, post: seq<nat>)
    requires x in code
    ensures code == pre + [x] + post && x !in post
  {
    var n := |code| - 1;
    if code[n] == x {
      pre, post := code[..n], [];
    } else {
      pre, post := LastOccurrence(code[..n], x);
      post := post + [code[n]];
      assert code == code[..n] + [code[n]];
    }
  }

  lemma WithoutInserted(pre: seq<nat>, i: nat, rest: seq<nat>)
    ensures Without(pre + [i] + rest, i) == Without(pre + rest, i)
  {
    WithoutAppend(pre + [i], rest, i);
    WithoutAppend(pre, [i], i);
    WithoutAppend(pre, rest, i);
    assert Without([i], i) == [] by {
      assert [i][..0] == [];
    }
  }

  /** i stands in code once, immediately before the last occurrence of boundary. */
  ghost predicate StandsJustBefore(code: seq<nat>, i: nat, boundary: nat) {
    exists pre, post :: code == pre + [i] + ([boundary] + post) && i !in pre && i !in post && boundary !in post
  }

  lemma InsertedJustBefore(code: seq<nat>, boundary: nat, i: nat)
    requires boundary in code && boundary != i
    ensures Without(InsertBefore(code, boundary, i), i) == Without(code, i)
    ensures i !in code ==> StandsJustBefore(InsertBefore(code, boundary, i), i, boundary)
  {
    var pre, post := LastOccurrence(code, boundary);
    InsertBeforeAt(pre, boundary, post, i);
    assert pre + [i] + [boundary] + post == pre + [i] + ([boundary] + post);
    assert pre + [boundary] + post == pre + ([boundary] + post);
    WithoutInserted(pre, i, [boundary] + post);
  }

  /** Two lists without duplicates, one inside the other and equally long, hold the same elements. */
  lemma {:induction false} SameElements(a: seq<nat>, b: seq<nat>)
    requires NoDup(a) && NoDup(b) && |a| >= |b|
    requires forall x :: x in a ==> x in b
    ensures |a| == |b| && forall x :: x in b ==> x in a
  {
    if a != [] {
      var n := |a| - 1;
      assert a[n] in a;
      var p :| 0 <= p < |b| && b[p] == a[n];
      WithoutAt(b, a[n], p);
      WithoutNoDup(b, a[n]);
      forall x | x in a[..n]
        ensures x in Without(b, a[n])
      {
        WithoutContents(b, a[n], x);
      }
      SameElements(a[..n], Without(b, a[n]));
      forall x | x in b
        ensures x in a
      {
        WithoutContents(b, a[n], x);
      }
    }
  }
}
