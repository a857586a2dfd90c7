/** What nfs41_name_cache_rename does to the tree and to the expiry order. */
module Renames {
  import opened Lists
  import opened Forests
  import opened PlainMaps

  ghost predicate Apart(a: Path, b: Path) {
    !(a <= b) && !(b <= a)
  }

  /** Paths below two paths that are apart stay apart. */
  lemma ApartBelow(a: Path, b: Path, x: Path, y: Path)
    requires Apart(a, b) && a <= x && b <= y
    ensures Apart(x, y)
  {
    if x <= y {
      PrefixesCompare(a, b, y);
    } else if y <= x {
      PrefixesCompare(a, b, x);
    }
  }

  /** What a rename of a name known to exist means for the plain map: the whole
      subtree moves, the old name is known not to exist and has nothing below
      it, and nothing outside the two subtrees changes. */
  lemma RenameMovesSubtree(m: Names, src: Path, dst: Path, q: Path)
    requires Apart(src, dst) && src in m && m[src].Positive?
    ensures var r := PlainRename(m, src, dst);
      && (dst + q in r <==> src + q in m) && (src + q in m ==> r[dst + q] == m[src + q])
      && (src + q in r <==> q == []) && r[src] == Negative
      && (!(src <= q) && !(dst <= q) ==> (q in r <==> q in m) && (q in m ==> r[q] == m[q]))
  {
    MovedAt(m, src, dst, q);
    MovedAt(m, src, dst, []);
    assert src + [] == src && dst <= dst + q && src <= src + q;
    assert !(src <= dst + q) && !(dst <= src + q) by {
      ApartBelow(src, dst, src, dst + q);
      ApartBelow(src, dst, src + q, dst);
    }
    assert dst + q != src;
  }

  lemma PrefixesCompare(a: Path, b: Path, z: Path)
    requires a <= z && b <= z
    ensures a <= b || b <= a
  {
    if |a| <= |b| {
      assert a == b[..|a|];
    } else {
      assert b == a[..|b|];
    }
  }

  lemma NotBelowParent(a: Path, b: Path)
    requires b != [] && !(a <= b)
    ensures !(a <= b[..|b| - 1])
  {
  }

  /** The cast of a rename within one tree: the entry at `src` (with parent
      `sp`), the target directory `dp`, and the entry that `dst` may have. */
  ghost predicate Cast(place: seq<Place>, top: nat, src: Path, dst: Path, s: nat, sp: nat, dp: nat, e: Option<nat>) {
    && src != [] && dst != [] && Apart(src, dst)
    && s < |place| && sp < |place| && dp < |place| && (e.Some? ==> e.value < |place|)
    && place[s] == Place(top, src) && place[sp] == Place(top, src[..|src| - 1])
    && place[dp] == Place(top, dst[..|dst| - 1])
    && (e.Some? ==> place[e.value] == Place(top, dst))
    && (e.None? ==> Absent(place, Some(top), dst))
  }

  /** The two subtrees have changed places; nothing else has moved. */
  ghost function ShiftedPlace(place: seq<Place>, src: Path, dst: Path, s: nat, e: Option<nat>, j: nat): Place
    requires j < |place| && s < |place| && (e.Some? ==> e.value < |place|)
    requires place[s].path == src && (e.Some? ==> place[e.value].path == dst)
  {
    if Under(place, s, j) then Place(place[j].top, dst + place[j].path[|src|..])
    else if e.Some? && Under(place, e.value, j) then Place(place[j].top, src + place[j].path[|dst|..])
    else place[j]
  }

  ghost predicate Shifted(place: seq<Place>, place': seq<Place>, src: Path, dst: Path, s: nat, e: Option<nat>)
    requires s < |place| && (e.Some? ==> e.value < |place|)
    requires place[s].path == src && (e.Some? ==> place[e.value].path == dst)
  {
    |place'| == |place| && forall j :: 0 <= j < |place| ==> place'[j] == ShiftedPlace(place, src, dst, s, e, j)
  }

  /** The places after name_cache_remove(existing), name_cache_remove(src),
      name_cache_insert(src) and name_cache_insert(existing). */
  ghost function Unhook1(place: seq<Place>, e: Option<nat>): seq<Place>
    requires e.Some? ==> e.value < |place|
  {
    if e.Some? then DetachedPlace(place, e.value) else place
  }

  ghost function Unhook2(place: seq<Place>, s: nat, e: Option<nat>): seq<Place>
    requires s < |place| && (e.Some? ==> e.value < |place|)
  {
    DetachedPlace(Unhook1(place, e), s)
  }

  ghost function Hook1(place: seq<Place>, dst: Path, s: nat, dp: nat, e: Option<nat>): seq<Place>
    requires dst != [] && s < |place| && dp < |place| && (e.Some? ==> e.value < |place|)
  {
    AttachedPlace(Unhook2(place, s, e), s, dp, dst[|dst| - 1])
  }

  ghost function Hook2(place: seq<Place>, src: Path, dst: Path, s: nat, sp: nat, dp: nat, e: Option<nat>): seq<Place>
    requires src != [] && dst != [] && s < |place| && sp < |place| && dp < |place| && (e.Some? ==> e.value < |place|)
  {
    if e.Some? then AttachedPlace(Hook1(place, dst, s, dp, e), e.value, sp, src[|src| - 1]) else Hook1(place, dst, s, dp, e)
  }

  /** Where an entry is while both subtrees are unhooked. */
  lemma UnhookedAt(pool: seq<NameEntry>, place: seq<Place>, top: nat, src: Path, dst: Path, s: nat, sp: nat, dp: nat, e: Option<nat>, j: nat)
    requires Forest(pool, place) && Cast(place, top, src, dst, s, sp, dp, e) && j < |place|
    ensures Unhook2(place, s, e)[j] ==
            if Under(place, s, j) then Place(s, place[j].path[|src|..])
            else if e.Some? && Under(place, e.value, j) then Place(e.value, place[j].path[|dst|..])
            else place[j]
    ensures !Under(place, s, sp) && !Under(place, s, dp) && top != s
    ensures e.Some? ==> !Under(place, e.value, sp) && !Under(place, e.value, dp) && !Under(place, e.value, s) && top != e.value && e.value != s
    ensures place[j].top != s && (e.Some? ==> place[j].top != e.value)
  {
    TopOf(pool, place, j);
    TopOf(pool, place, s);
    assert Hangs(pool, place, s);
    NotBelowParent(src, dst);
    NotBelowParent(dst, src);
    if e.Some? {
      assert Hangs(pool, place, e.value);
      if Under(place, s, j) && Under(place, e.value, j) {
        PrefixesCompare(src, dst, place[j].path);
      }
    }
  }

  lemma HookedAt(pool: seq<NameEntry>, place: seq<Place>, top: nat, src: Path, dst: Path, s: nat, sp: nat, dp: nat, e: Option<nat>, j: nat)
    requires Forest(pool, place) && Cast(place, top, src, dst, s, sp, dp, e) && j < |place|
    ensures Hook2(place, src, dst, s, sp, dp, e)[j] == ShiftedPlace(place, src, dst, s, e, j)
    ensures Hook1(place, dst, s, dp, e)[sp] == place[sp]
  {
    UnhookedAt(pool, place, top, src, dst, s, sp, dp, e, j);
    UnhookedAt(pool, place, top, src, dst, s, sp, dp, e, dp);
    UnhookedAt(pool, place, top, src, dst, s, sp, dp, e, sp);
    assert dst == dst[..|dst| - 1] + [dst[|dst| - 1]];
    assert src == src[..|src| - 1] + [src[|src| - 1]];
  }

  lemma HookedIsShifted(pool: seq<NameEntry>, place: seq<Place>, top: nat, src: Path, dst: Path, s: nat, sp: nat, dp: nat, e: Option<nat>)
    requires Forest(pool, place) && Cast(place, top, src, dst, s, sp, dp, e)
    ensures Shifted(place, Hook2(place, src, dst, s, sp, dp, e), src, dst, s, e)
  {
    forall j | 0 <= j < |place|
      ensures Hook2(place, src, dst, s, sp, dp, e)[j] == ShiftedPlace(place, src, dst, s, e, j)
    {
      HookedAt(pool, place, top, src, dst, s, sp, dp, e, j);
    }
  }

  // names

  /** Negating what now stands at the old name makes the move a plain rename. */
  lemma ShiftedNames(pool: seq<NameEntry>, place: seq<Place>, pool': seq<NameEntry>, place': seq<Place>,
                     top: nat, src: Path, dst: Path, s: nat, sp: nat, dp: nat, e: Option<nat>)
    requires Forest(pool, place) && Forest(pool', place') && |pool'| == |pool| && Cast(place, top, src, dst, s, sp, dp, e)
    requires Shifted(place, place', src, dst, s, e) && pool[s].attributes.Some?
    requires forall j :: 0 <= j < |pool| ==> BindingOf(pool'[j]) == BindingOf(pool[j])
    ensures PlainRemove(NamesOf(pool', place', Some(top)), src) == PlainRename(NamesOf(pool, place, Some(top)), src, dst)
  {
    hide PlainRename; hide Moved; hide Shifted; hide Hangs; hide IsChild; hide NamesOf; hide Forget;
    var m, m' := NamesOf(pool, place, Some(top)), NamesOf(pool', place', Some(top));
    var a, b := PlainRemove(m', src), PlainRename(m, src, dst);
    forall q | q in a && q != src
      ensures q in b && b[q] == a[q]
    {
      ForwardName(pool, place, pool', place', top, src, dst, s, sp, dp, e, q);
    }
    forall q | q in b && q != src
      ensures q in a
    {
      BackName(pool, place, pool', place', top, src, dst, s, sp, dp, e, q);
    }
    RenameAtSource(m, src, dst);
    assert a.Keys == b.Keys;
  }

  lemma ForwardName(pool: seq<NameEntry>, place: seq<Place>, pool': seq<NameEntry>, place': seq<Place>,
                    top: nat, src: Path, dst: Path, s: nat, sp: nat, dp: nat, e: Option<nat>, q: Path)
    requires Forest(pool, place) && Forest(pool', place') && |pool'| == |pool| && Cast(place, top, src, dst, s, sp, dp, e)
    requires Shifted(place, place', src, dst, s, e) && pool[s].attributes.Some?
    requires forall j :: 0 <= j < |pool| ==> BindingOf(pool'[j]) == BindingOf(pool[j])
    requires q != src && q in PlainRemove(NamesOf(pool', place', Some(top)), src)
    ensures var b := PlainRename(NamesOf(pool, place, Some(top)), src, dst);
      q in b && b[q] == PlainRemove(NamesOf(pool', place', Some(top)), src)[q]
  {
    hide PlainRename; hide Moved; hide Hangs; hide IsChild; hide Shifted; hide ShiftedPlace;
    var m, m' := NamesOf(pool, place, Some(top)), NamesOf(pool', place', Some(top));
    NamesWithin(pool, place, Some(top), m);
    NamesWithin(pool', place', Some(top), m');
    var j :| 0 <= j < |pool'| && InTree(place', Some(top), j) && place'[j].path == q;
    ShiftedTop(place, place', src, dst, s, e, j);
    assert InTree(place, Some(top), s) && InTree(place, Some(top), j);
    ShiftedForward(place, place', top, src, dst, s, sp, dp, e, m, j);
  }

  lemma ShiftedTop(place: seq<Place>, place': seq<Place>, src: Path, dst: Path, s: nat, e: Option<nat>, j: nat)
    requires s < |place| && (e.Some? ==> e.value < |place|) && j < |place|
    requires place[s].path == src && (e.Some? ==> place[e.value].path == dst) && Shifted(place, place', src, dst, s, e)
    ensures |place'| == |place| && place'[j].top == place[j].top
  {
  }

  lemma BackName(pool: seq<NameEntry>, place: seq<Place>, pool': seq<NameEntry>, place': seq<Place>,
                 top: nat, src: Path, dst: Path, s: nat, sp: nat, dp: nat, e: Option<nat>, q: Path)
    requires Forest(pool, place) && Forest(pool', place') && |pool'| == |pool| && Cast(place, top, src, dst, s, sp, dp, e)
    requires Shifted(place, place', src, dst, s, e) && pool[s].attributes.Some?
    requires q != src && q in PlainRename(NamesOf(pool, place, Some(top)), src, dst)
    ensures q in PlainRemove(NamesOf(pool', place', Some(top)), src)
  {
    hide PlainRename; hide Moved; hide Hangs; hide IsChild; hide Shifted;
    var m, m' := NamesOf(pool, place, Some(top)), NamesOf(pool', place', Some(top));
    NamesWithin(pool, place, Some(top), m);
    NamesWithin(pool', place', Some(top), m');
    assert InTree(place, Some(top), s);
    ShiftedBack(place, place', top, src, dst, s, sp, dp, e, m, m', q);
  }

  lemma RenameAtSource(m: Names, src: Path, dst: Path)
    requires src != dst
    ensures src in PlainRename(m, src, dst) && PlainRename(m, src, dst)[src] == Negative
  {
  }

  lemma ShiftedForward(place: seq<Place>, place': seq<Place>, top: nat, src: Path, dst: Path, s: nat, sp: nat, dp: nat, e: Option<nat>, m: Names, j: nat)
    requires Cast(place, top, src, dst, s, sp, dp, e) && Shifted(place, place', src, dst, s, e) && j < |place|
    requires src in m && m[src].Positive? && place'[j].top == top && place[j].path in m && !(src <= place'[j].path)
    ensures var b := PlainRename(m, src, dst);
      place'[j].path in b && b[place'[j].path] == m[place[j].path]
  {
    if Under(place, s, j) {
      var suffix := place[j].path[|src|..];
      assert place[j].path == src + suffix;
      MovedAt(m, src, dst, suffix);
    } else {
      MovedAt(m, src, dst, []);
      assert InTree(place, Some(top), j);
    }
  }

  lemma ShiftedBack(place: seq<Place>, place': seq<Place>, top: nat, src: Path, dst: Path, s: nat, sp: nat, dp: nat, e: Option<nat>, m: Names, m': Names, q: Path)
    requires Cast(place, top, src, dst, s, sp, dp, e) && Shifted(place, place', src, dst, s, e)
    requires src in m && m[src].Positive? && q in PlainRename(m, src, dst) && q != src
    requires forall p :: p in m ==> exists j :: 0 <= j < |place| && InTree(place, Some(top), j) && place[j].path == p
    requires forall j :: 0 <= j < |place'| && InTree(place', Some(top), j) ==> place'[j].path in m'
    ensures q in m' && !(src <= q)
  {
    MovedAt(m, src, dst, []);
    if q in Moved(m, src, dst) {
      var suffix := q[|dst|..];
      assert q == dst + suffix;
      MovedAt(m, src, dst, suffix);
      var j :| 0 <= j < |place| && InTree(place, Some(top), j) && place[j].path == src + suffix;
      assert place[j].path[|src|..] == suffix;
      assert InTree(place', Some(top), j);
      ApartBelow(src, dst, src, q);
    } else {
      var j :| 0 <= j < |place| && InTree(place, Some(top), j) && place[j].path == q;
      assert InTree(place', Some(top), j);
    }
  }

  // expiry order

  /** An entry below the new place of the moved subtree belongs to it. */
  lemma NewPlace(place: seq<Place>, top: nat, src: Path, dst: Path, s: nat, sp: nat, dp: nat, e: Option<nat>, k: nat)
    requires Cast(place, top, src, dst, s, sp, dp, e) && k < |place| && place[k].top == top
    requires !Under(place, s, k) && (e.Some? ==> !Under(place, e.value, k))
    ensures !(src <= place[k].path) && !(dst <= place[k].path)
  {
    assert InTree(place, Some(top), k);
  }

  lemma ProperPrefixOfParent(p: Path, q: Path)
    requires q != [] && p <= q && |p| < |q|
    ensures p <= q[..|q| - 1]
  {
  }

  lemma PrefixOfConcat(p: Path, a: Path, b: Path)
    requires p <= a + b && !(a <= p)
    ensures p <= a && |p| < |a|
  {
    if |a| <= |p| {
      PrefixesCompare(a, p, a + b);
    } else {
      assert p == (a + b)[..|p|] == a[..|p|];
    }
  }

  /** After the move, an ancestor that comes too late is `sp` or above it, and
      too late for an entry below `sp`. */
  lemma ShiftedPair(pool: seq<NameEntry>, place: seq<Place>, place': seq<Place>, exp: seq<nat>,
                    top: nat, src: Path, dst: Path, s: nat, sp: nat, dp: nat, e: Option<nat>, i: nat, j: nat)
    requires Forest(pool, place) && Cast(place, top, src, dst, s, sp, dp, e) && Shifted(place, place', src, dst, s, e)
    requires Listed(place, exp) && Ordered(place, exp) && Fronted(place, exp, dp, None) && i < j < |exp|
    requires Above(place', exp[j], exp[i])
    ensures Under(place', exp[j], sp) && Under(place', sp, exp[i])
  {
    var a, b := exp[j], exp[i];
    var pa, pb := place'[a].path, place'[b].path;
    assert place'[a] == ShiftedPlace(place, src, dst, s, e, a) && place'[b] == ShiftedPlace(place, src, dst, s, e, b);
    UnhookedAt(pool, place, top, src, dst, s, sp, dp, e, sp);
    assert place'[sp] == place[sp];
    assert !Above(place, a, b);
    var inS := Under(place, s, b);
    var inE := e.Some? && Under(place, e.value, b);
    if Under(place, s, a) {
      MovedAbove(place, place', top, src, dst, s, sp, dp, e, a, b);
    } else if e.Some? && Under(place, e.value, a) {
      RecycledAbove(place, place', top, src, dst, s, sp, dp, e, a, b);
    } else if inS {
      StillAboveMoved(place, place', exp, top, src, dst, s, sp, dp, e, i, j);
    } else if inE {
      StillAboveRecycled(place, place', top, src, dst, s, sp, dp, e, a, b);
    }
  }

  lemma MovedAbove(place: seq<Place>, place': seq<Place>, top: nat, src: Path, dst: Path, s: nat, sp: nat, dp: nat, e: Option<nat>, a: nat, b: nat)
    requires Cast(place, top, src, dst, s, sp, dp, e) && Shifted(place, place', src, dst, s, e) && a < |place| && b < |place|
    requires Under(place, s, a) && Above(place', a, b)
    ensures Above(place, a, b)
  {
    var x := place[a].path[|src|..];
    if Under(place, s, b) {
      var y := place[b].path[|src|..];
      assert x == place'[a].path[|dst|..] && y == place'[b].path[|dst|..];
      assert place[a].path == src + x && place[b].path == src + y;
    } else if e.Some? && Under(place, e.value, b) {
      ApartBelow(dst, src, place'[a].path, place'[b].path);
    } else {
      NewPlace(place, top, src, dst, s, sp, dp, e, b);
    }
  }

  lemma RecycledAbove(place: seq<Place>, place': seq<Place>, top: nat, src: Path, dst: Path, s: nat, sp: nat, dp: nat, e: Option<nat>, a: nat, b: nat)
    requires Cast(place, top, src, dst, s, sp, dp, e) && Shifted(place, place', src, dst, s, e) && a < |place| && b < |place|
    requires e.Some? && Under(place, e.value, a) && !Under(place, s, a) && Above(place', a, b)
    ensures Above(place, a, b)
  {
    var x := place[a].path[|dst|..];
    if Under(place, s, b) {
      ApartBelow(src, dst, place'[a].path, place'[b].path);
    } else if Under(place, e.value, b) {
      var y := place[b].path[|dst|..];
      assert x == place'[a].path[|src|..] && y == place'[b].path[|src|..];
      assert place[a].path == dst + x && place[b].path == dst + y;
    } else {
      NewPlace(place, top, src, dst, s, sp, dp, e, b);
    }
  }

  lemma StillAboveMoved(place: seq<Place>, place': seq<Place>, exp: seq<nat>, top: nat, src: Path, dst: Path, s: nat, sp: nat, dp: nat, e: Option<nat>, i: nat, j: nat)
    requires Cast(place, top, src, dst, s, sp, dp, e) && Shifted(place, place', src, dst, s, e)
    requires Listed(place, exp) && Fronted(place, exp, dp, None) && i < j < |exp|
    requires Under(place, s, exp[i]) && !Under(place, s, exp[j]) && (e.Some? ==> !Under(place, e.value, exp[j]))
    ensures !Above(place', exp[j], exp[i])
  {
    var a, b := exp[j], exp[i];
    NotBelowParent(src, dst);
    PrefixChain(src, place[b].path, dst[..|dst| - 1]);
    assert !OnWay(place, dp, None, b) && !OnWay(place, dp, None, a);
    if Above(place', a, b) {
      NewPlace(place, top, src, dst, s, sp, dp, e, a);
      PrefixOfConcat(place[a].path, dst, place[b].path[|src|..]);
      ProperPrefixOfParent(place[a].path, dst);
    }
  }

  lemma PrefixChain(a: Path, b: Path, c: Path)
    requires a <= b
    ensures b <= c ==> a <= c
  {
  }

  lemma StillAboveRecycled(place: seq<Place>, place': seq<Place>, top: nat, src: Path, dst: Path, s: nat, sp: nat, dp: nat, e: Option<nat>, a: nat, b: nat)
    requires Cast(place, top, src, dst, s, sp, dp, e) && Shifted(place, place', src, dst, s, e) && a < |place| && b < |place|
    requires e.Some? && Under(place, e.value, b) && !Under(place, s, b) && !Under(place, s, a) && !Under(place, e.value, a)
    requires Above(place', a, b) && place'[sp] == place[sp]
    ensures Under(place', a, sp) && Under(place', sp, b)
  {
    NewPlace(place, top, src, dst, s, sp, dp, e, a);
    var y := place[b].path[|dst|..];
    PrefixOfConcat(place[a].path, src, y);
    ProperPrefixOfParent(place[a].path, src);
    assert src[..|src| - 1] <= src <= src + y;
  }

  lemma ShiftedOrder(pool: seq<NameEntry>, place: seq<Place>, place': seq<Place>, exp: seq<nat>,
                     top: nat, src: Path, dst: Path, s: nat, sp: nat, dp: nat, e: Option<nat>)
    requires Forest(pool, place) && Cast(place, top, src, dst, s, sp, dp, e) && Shifted(place, place', src, dst, s, e)
    requires Listed(place, exp) && Ordered(place, exp) && Fronted(place, exp, dp, None)
    ensures Listed(place', exp) && OrderedBut(place', exp, Some(sp)) && OrderedOutside(place', exp, Subtree(place', sp))
  {
    forall i, j | 0 <= i < j < |exp| && Above(place', exp[j], exp[i])
      ensures Under(place', exp[j], sp) && Under(place', sp, exp[i])
    {
      ShiftedPair(pool, place, place', exp, top, src, dst, s, sp, dp, e, i, j);
    }
  }
}
