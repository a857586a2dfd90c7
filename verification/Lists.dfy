/** Small vocabulary shared by the models: optional values, bytes, and the
    intrusive lists of daemon/list.h seen as duplicate-free sequences. */
module Lists {

  datatype Option<+T> = None | Some(value: T)

  type Byte = x: nat | x < 256

  ghost predicate NoDup<T>(s: seq<T>) {
    forall i, j :: 0 <= i < j < |s| ==> s[i] != s[j]
  }

  /** `list_remove` of every element of `gone`; what stays keeps its order. */
  function Without<T(==)>(s: seq<T>, gone: set<T>): seq<T> {
    if s == [] then [] else
      (if s[0] in gone then [] else [s[0]]) + Without(s[1..], gone)
  }

  lemma {:induction false} WithoutIn<T(!new)>(s: seq<T>, gone: set<T>)
    ensures forall x :: x in Without(s, gone) <==> x in s && x !in gone
  {
    if s != [] {
      WithoutIn(s[1..], gone);
    }
  }

  lemma {:induction false} WithoutNoDup<T(!new)>(s: seq<T>, gone: set<T>)
    requires NoDup(s)
    ensures NoDup(Without(s, gone))
  {
    if s != [] {
      WithoutNoDup(s[1..], gone);
      WithoutIn(s[1..], gone);
    }
  }

  lemma {:induction false} WithoutAbsent<T(!new)>(s: seq<T>, gone: set<T>)
    requires forall x :: x in s ==> x !in gone
    ensures Without(s, gone) == s
  {
    if s != [] {
      assert s[0] in s;
      WithoutAbsent(s[1..], gone);
    }
  }

  lemma {:induction false} WithoutConcat<T(!new)>(a: seq<T>, b: seq<T>, gone: set<T>)
    ensures Without(a + b, gone) == Without(a, gone) + Without(b, gone)
  {
    if a == [] {
      assert a + b == b;
    } else {
      var head := if a[0] in gone then [] else [a[0]];
      calc {
        Without(a + b, gone);
        { assert (a + b)[0] == a[0] && (a + b)[1..] == a[1..] + b; }
        head + Without(a[1..] + b, gone);
        { WithoutConcat(a[1..], b, gone); }
        head + (Without(a[1..], gone) + Without(b, gone));
        (head + Without(a[1..], gone)) + Without(b, gone);
        Without(a, gone) + Without(b, gone);
      }
    }
  }

  lemma {:induction false} WithoutTwice<T(!new)>(s: seq<T>, a: set<T>, b: set<T>)
    ensures Without(Without(s, a), b) == Without(s, a + b)
  {
    if s != [] {
      WithoutTwice(s[1..], a, b);
      WithoutConcat(if s[0] in a then [] else [s[0]], Without(s[1..], a), b);
    }
  }

  /** `r` is `s` with the elements of `gone` taken out and queued at the tail, in the order of `moved`. */
  ghost predicate Requeued<T(!new)>(s: seq<T>, gone: set<T>, moved: seq<T>, r: seq<T>) {
    && r == Without(s, gone) + moved
    && NoDup(moved)
    && (forall x :: x in moved <==> x in gone)
  }

  lemma RequeuedNone<T(!new)>(s: seq<T>)
    ensures Requeued(s, {}, [], s)
  {
    WithoutAbsent(s, {});
    assert s + [] == s;
  }

  lemma RequeuedOne<T(!new)>(s: seq<T>, x: T)
    ensures Requeued(s, {x}, [x], Without(s, {x}) + [x])
  {
  }

  /** Requeueing twice is requeueing once. */
  lemma RequeuedTwice<T(!new)>(s: seq<T>, a: set<T>, m: seq<T>, r: seq<T>, b: set<T>, n: seq<T>, t: seq<T>)
    requires Requeued(s, a, m, r) && Requeued(r, b, n, t) && a !! b
    ensures Requeued(s, a + b, m + n, t)
  {
    calc {
      t;
      Without(Without(s, a) + m, b) + n;
      { WithoutConcat(Without(s, a), m, b); }
      Without(Without(s, a), b) + Without(m, b) + n;
      { WithoutTwice(s, a, b); }
      Without(s, a + b) + Without(m, b) + n;
      { WithoutAbsent(m, b); }
      Without(s, a + b) + m + n;
      Without(s, a + b) + (m + n);
    }
    NoDupConcat(m, n);
  }

  lemma RequeuedKeeps<T(!new)>(s: seq<T>, gone: set<T>, moved: seq<T>, r: seq<T>)
    requires Requeued(s, gone, moved, r)
    ensures forall x :: x in s ==> x in r
  {
    WithoutIn(s, gone);
  }

  lemma NoDupConcat<T(!new)>(m: seq<T>, n: seq<T>)
    requires NoDup(m) && NoDup(n) && forall x :: x in m ==> x !in n
    ensures NoDup(m + n)
  {
    forall i, j | 0 <= i < j < |m + n|
      ensures (m + n)[i] != (m + n)[j]
    {
      if i < |m| <= j {
        assert m[i] in m && n[j - |m|] in n;
      }
    }
  }

  lemma RequeuedNoDup<T(!new)>(s: seq<T>, gone: set<T>, moved: seq<T>, r: seq<T>)
    requires NoDup(s) && Requeued(s, gone, moved, r)
    ensures NoDup(r)
  {
    WithoutNoDup(s, gone);
    WithoutIn(s, gone);
    NoDupConcat(Without(s, gone), moved);
  }

  /** `Without` is order preserving: a pair of the result is a pair of the input. */
  lemma {:induction false} WithoutPair<T(!new)>(s: seq<T>, gone: set<T>, i: nat, j: nat) returns (p: nat, q: nat)
    requires i < j < |Without(s, gone)|
    ensures p < q < |s|
    ensures s[p] == Without(s, gone)[i] && s[q] == Without(s, gone)[j]
  {
    if s[0] in gone {
      p, q := WithoutPair(s[1..], gone, i, j);
      p, q := p + 1, q + 1;
    } else if i > 0 {
      p, q := WithoutPair(s[1..], gone, i - 1, j - 1);
      p, q := p + 1, q + 1;
    } else {
      var y := Without(s[1..], gone)[j - 1];
      assert y in Without(s[1..], gone);
      WithoutIn(s[1..], gone);
      p := 0;
      q :| 0 < q < |s| && s[q] == y;
    }
  }
}
