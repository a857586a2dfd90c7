/** Path resolution, daemon/lookup.c: the longest prefix that the name cache
    shows, and then compounds of LOOKUPs whose results go to a fixed set of
    slots. The directory of the next compound lives in one of those slots. */
module PathLookups {
  import opened Lists
  import opened Forests
  import opened PlainMaps

  // Resolving one component at a time

  datatype Step = Entry(fh: Fh) | NoEnt | SymLink | Moved | Failed(code: nat)

  /** What LOOKUP of a name in a directory answers, and the root's handle. */
  datatype Server = Server(lookup: (Fh, Component) -> Step, root: Fh)

  datatype Outcome =
    | Resolved(target: Fh, parent: Option<Fh>)
    | Stopped(step: Step, dir: Fh, left: nat)

  function Walk(server: Server, fh: Fh, parent: Option<Fh>, comps: Path): (o: Outcome)
    ensures o.Stopped? ==> !o.step.Entry? && 0 < o.left <= |comps|
    ensures o.Resolved? && comps != [] ==> o.parent.Some?
    decreases |comps|
  {
    if comps == [] then Resolved(fh, parent)
    else
      var step := server.lookup(fh, comps[0]);
      if step.Entry? then Walk(server, step.fh, Some(fh), comps[1..])
      else Stopped(step, fh, |comps|)
  }

  lemma {:induction false} WalkOn(server: Server, fh: Fh, parent: Option<Fh>, a: Path, b: Path)
    ensures Walk(server, fh, parent, a + b) ==
            match Walk(server, fh, parent, a)
            case Resolved(t, p) => Walk(server, t, p, b)
            case Stopped(step, dir, left) => Stopped(step, dir, left + |b|)
    decreases |a|
  {
    if a == [] {
      assert a + b == b;
    } else {
      var step := server.lookup(fh, a[0]);
      assert (a + b)[1..] == a[1..] + b;
      if step.Entry? {
        WalkOn(server, step.fh, Some(fh), a[1..], b);
      }
    }
  }

  /** The handles reached one after the other, up to the first failure. */
  function Trail(server: Server, fh: Fh, comps: Path): (t: seq<Fh>)
    ensures |t| <= |comps|
    decreases |comps|
  {
    if comps == [] || !server.lookup(fh, comps[0]).Entry? then []
    else
      var next := server.lookup(fh, comps[0]).fh;
      [next] + Trail(server, next, comps[1..])
  }

  function Before(fh: Fh, trail: seq<Fh>, k: nat): Fh
    requires k <= |trail|
  {
    if k == 0 then fh else trail[k - 1]
  }

  lemma {:induction false} TrailSteps(server: Server, fh: Fh, comps: Path, k: nat)
    requires k < |comps| && k <= |Trail(server, fh, comps)|
    ensures var trail := Trail(server, fh, comps);
      var step := server.lookup(Before(fh, trail, k), comps[k]);
      if k < |trail| then step == Entry(trail[k]) else !step.Entry?
    decreases k
  {
    if k > 0 {
      var next := server.lookup(fh, comps[0]).fh;
      TrailSteps(server, next, comps[1..], k - 1);
    }
  }

  lemma {:induction false} WalkIsTrail(server: Server, fh: Fh, parent: Option<Fh>, comps: Path)
    ensures var trail := Trail(server, fh, comps);
      var n := |trail|;
      Walk(server, fh, parent, comps) ==
        if n == |comps| then Resolved(Before(fh, trail, n), if n == 0 then parent else Some(Before(fh, trail, n - 1)))
        else Stopped(server.lookup(Before(fh, trail, n), comps[n]), Before(fh, trail, n), |comps| - n)
    decreases |comps|
  {
    if comps != [] && server.lookup(fh, comps[0]).Entry? {
      var next := server.lookup(fh, comps[0]).fh;
      WalkIsTrail(server, next, Some(fh), comps[1..]);
    }
  }

  /** The bindings that looking up the components teaches, for the path `at` of
      the directory they start from. */
  function Seen(server: Server, fh: Fh, at: Path, comps: Path): Names
    decreases |comps|
  {
    if comps == [] then map[]
    else
      match server.lookup(fh, comps[0])
      case Entry(next) => map[at + [comps[0]] := Positive(next)] + Seen(server, next, at + [comps[0]], comps[1..])
      case NoEnt => map[at + [comps[0]] := Negative]
      case _ => map[]
  }

  /** What one more answer adds. */
  function Taught(names: Names, step: Step, p: Path): Names {
    match step
    case Entry(next) => names[p := Positive(next)]
    case NoEnt => names[p := Negative]
    case _ => names
  }

  lemma TaughtLast(first: Names, names: Names, step: Step, p: Path)
    ensures first + Taught(names, step, p) == Taught(first + names, step, p)
  {
  }

  /** Looking up the first `k + 1` components teaches one binding more than the
      first `k`, unless the lookup stops before. */
  lemma {:induction false} SeenOneMore(server: Server, fh: Fh, at: Path, comps: Path, k: nat)
    requires k < |comps| && k <= |Trail(server, fh, comps)|
    ensures Seen(server, fh, at, comps[..k + 1]) ==
            Taught(Seen(server, fh, at, comps[..k]), server.lookup(Before(fh, Trail(server, fh, comps), k), comps[k]), at + comps[..k + 1])
    decreases k
  {
    if k == 0 {
      SeenFirst(server, fh, at, comps);
    } else {
      var next, down := server.lookup(fh, comps[0]).fh, at + [comps[0]];
      var trail := Trail(server, next, comps[1..]);
      assert Trail(server, fh, comps) == [next] + trail;
      hide Seen, Trail, Taught;
      SeenOneMore(server, next, down, comps[1..], k - 1);
      SeenUnfolds(server, fh, at, comps, k);
      SeenUnfolds(server, fh, at, comps, k + 1);
      assert down + comps[1..][..k] == at + comps[..k + 1];
      assert Before(fh, [next] + trail, k) == Before(next, trail, k - 1);
      TaughtLast(map[down := Positive(next)], Seen(server, next, down, comps[1..][..k - 1]),
                 server.lookup(Before(next, trail, k - 1), comps[k]), at + comps[..k + 1]);
    }
  }

  lemma SeenFirst(server: Server, fh: Fh, at: Path, comps: Path)
    requires comps != []
    ensures Seen(server, fh, at, comps[..1]) == Taught(Seen(server, fh, at, comps[..0]), server.lookup(fh, comps[0]), at + comps[..1])
  {
    assert comps[..1] == [comps[0]];
    assert comps[..0] == [];
  }

  lemma SeenUnfolds(server: Server, fh: Fh, at: Path, comps: Path, n: nat)
    requires 0 < n <= |comps| && server.lookup(fh, comps[0]).Entry?
    ensures var next := server.lookup(fh, comps[0]).fh;
      Seen(server, fh, at, comps[..n]) ==
        map[at + [comps[0]] := Positive(next)] + Seen(server, next, at + [comps[0]], comps[1..][..n - 1])
  {
    assert comps[..n][1..] == comps[1..][..n - 1];
  }

  /** Past the point where it stops, nothing more is learned. */
  lemma {:induction false} SeenStops(server: Server, fh: Fh, at: Path, comps: Path)
    requires |Trail(server, fh, comps)| < |comps|
    ensures Seen(server, fh, at, comps) == Seen(server, fh, at, comps[..|Trail(server, fh, comps)| + 1])
    decreases |comps|
  {
    var step := server.lookup(fh, comps[0]);
    if step.Entry? {
      var n := |Trail(server, fh, comps)|;
      SeenStops(server, step.fh, at + [comps[0]], comps[1..]);
      assert comps[..n + 1][1..] == comps[1..][..n];
    }
  }

  lemma SeenNext(server: Server, fh: Fh, at: Path, comps: Path)
    requires comps != [] && server.lookup(fh, comps[0]).Entry?
    ensures var next := server.lookup(fh, comps[0]).fh;
      Seen(server, fh, at, comps) == map[at + [comps[0]] := Positive(next)] + Seen(server, next, at + [comps[0]], comps[1..])
  {
  }

  lemma NamesAssoc(a: Names, b: Names, c: Names)
    ensures a + (b + c) == (a + b) + c
  {
  }

  lemma {:induction false} SeenOn(server: Server, fh: Fh, parent: Option<Fh>, at: Path, a: Path, b: Path)
    ensures Seen(server, fh, at, a + b) ==
            match Walk(server, fh, parent, a)
            case Resolved(t, _) => Seen(server, fh, at, a) + Seen(server, t, at + a, b)
            case Stopped(_, _, _) => Seen(server, fh, at, a)
    decreases |a|
  {
    if a == [] {
      assert a + b == b && at + a == at;
    } else {
      var step := server.lookup(fh, a[0]);
      assert (a + b)[0] == a[0] && (a + b)[1..] == a[1..] + b;
      if step.Entry? {
        SeenNext(server, fh, at, a + b);
        SeenNext(server, fh, at, a);
        var rest := Walk(server, step.fh, Some(fh), a[1..]);
        assert Walk(server, fh, parent, a) == rest;
        hide Seen, Walk;
        SeenOn(server, step.fh, Some(fh), at + [a[0]], a[1..], b);
        assert at + [a[0]] + a[1..] == at + a;
        if rest.Resolved? {
          NamesAssoc(map[at + [a[0]] := Positive(step.fh)], Seen(server, step.fh, at + [a[0]], a[1..]), Seen(server, rest.target, at + a, b));
        }
      }
    }
  }

  /** Every binding the cache shows is what the server would answer. */
  ghost predicate Truthful(server: Server, visible: Names) {
    forall p :: p in visible ==>
      var outcome := Walk(server, server.root, None, p);
      match visible[p]
      case Positive(fh) => outcome.Resolved? && outcome.target == fh
      case Negative => outcome.Stopped? && outcome.step.NoEnt? && outcome.left == 1
  }

  /** What is learned is true. */
  lemma {:induction false} SeenIsTrue(server: Server, fh: Fh, at: Path, comps: Path)
    requires Walk(server, server.root, None, at).Resolved? && Walk(server, server.root, None, at).target == fh
    ensures Truthful(server, Seen(server, fh, at, comps))
    decreases |comps|
  {
    if comps != [] {
      var step, down := server.lookup(fh, comps[0]), at + [comps[0]];
      WalkOn(server, server.root, None, at, [comps[0]]);
      if step.Entry? {
        SeenIsTrue(server, step.fh, down, comps[1..]);
      }
    }
  }

  // How many components fit

  const MAX_LOOKUP_COMPONENTS: nat := 128

  /** max_lookup_components, in unsigned 32-bit arithmetic */
  function MaxComponents(caMaxOperations: nat): nat {
    var comps := if caMaxOperations < MAX_LOOKUP_COMPONENTS then caMaxOperations else MAX_LOOKUP_COMPONENTS;
    ((comps - 4) % 0x1_0000_0000) / 3
  }

  /** The operations of one lookup compound: SEQUENCE, and PUTFH or PUTROOTFH
      with GETFH and GETATTR, and three for each component. */
  function Operations(fromRoot: bool, count: nat): nat {
    (if fromRoot then 4 else 2) + 3 * count
  }

  /** Every compound fits what the session allows, no larger number of
      components would, and two fit exactly if it allows ten operations. */
  lemma CompoundFits(caMaxOperations: nat, fromRoot: bool, count: nat)
    requires caMaxOperations >= 4 && count <= MaxComponents(caMaxOperations)
    ensures Operations(fromRoot, count) <= caMaxOperations
    ensures count <= MAX_LOOKUP_COMPONENTS
    ensures MaxComponents(caMaxOperations) >= 2 <==> caMaxOperations >= 10
    ensures caMaxOperations <= MAX_LOOKUP_COMPONENTS ==> Operations(true, MaxComponents(caMaxOperations) + 1) > caMaxOperations
  {
  }

  /** What asking for the root teaches. */
  function RootSeen(server: Server, fromRoot: bool): Names {
    if fromRoot then map[[] := Positive(server.root)] else map[]
  }

  lemma SeenNothing(server: Server, fh: Fh, at: Path, comps: Path, was: Names)
    ensures was + Seen(server, fh, at, comps[..0]) == was
  {
  }

  // Slots

  datatype Status = NoError | FileNotFound | PathNotFound | Reparse | FilesystemAbsent | Other(code: nat)

  /** map_lookup_error */
  function MapLookupError(step: Step, last: bool): Status {
    match step
    case Entry(_) => NoError
    case NoEnt => if last then FileNotFound else PathNotFound
    case SymLink => Reparse
    case Moved => FilesystemAbsent
    case Failed(code) => Other(code)
  }

  /** The error that a caller can tell an answer by. */
  predicate Reports(status: Status, step: Step, last: bool) {
    && (step.Entry? <==> status == NoError)
    && (step.NoEnt? <==> status == FileNotFound || status == PathNotFound)
    && (step.NoEnt? ==> (last <==> status == FileNotFound))
    && (step.SymLink? <==> status == Reparse)
    && (step.Moved? <==> status == FilesystemAbsent)
    && (step.Failed? ==> status == Other(step.code))
  }

  lemma ErrorReports(step: Step, last: bool)
    ensures Reports(MapLookupError(step, last), step, last)
  {
  }

  /** What a path_fh pointer of the loop points to. */
  datatype Ref = InStart | InRoot | InSlot(i: nat)

  class Resolver {
    const server: Server
    const start: Option<Fh>
    const file: array<Fh>
    const name: array<Component>
    const result: array<Step>
    const base: Path       // the path that `start` is the handle of
    var root: Fh
    var learned: Names     // what has been inserted into the name cache

    ghost predicate Valid() {
      && file.Length == name.Length == result.Length == MAX_LOOKUP_COMPONENTS
    }

    constructor (server: Server, start: Option<Fh>, base: Path)
      ensures Valid() && this.server == server && this.start == start && this.base == base && learned == map[]
      ensures fresh(file) && fresh(name) && fresh(result)
    {
      this.server, this.start, this.base, this.learned := server, start, base, map[];
      file := new Fh[MAX_LOOKUP_COMPONENTS](_ => []);
      name := new Component[MAX_LOOKUP_COMPONENTS](_ => "");
      result := new Step[MAX_LOOKUP_COMPONENTS](_ => NoEnt);
      root := [];
    }

    predicate Points(r: Ref)
    {
      (r.InStart? ==> start.Some?) && (r.InSlot? ==> r.i < file.Length)
    }

    function At(r: Ref): Fh
      requires Points(r)
      reads this`root, file
    {
      match r
      case InStart => start.value
      case InRoot => root
      case InSlot(i) => file[i]
    }

    /** The handle the server starts from. */
    function From(dir: Ref): Fh
      requires Points(dir)
      reads this`root, file
    {
      if dir.InRoot? then server.root else At(dir)
    }

    /** lookup_rpc: the request is encoded before the answer is decoded, so the
        directory is read before its slot can be overwritten. */
    method LookupRpc(dir: Ref, count: nat)
      requires Valid() && Points(dir) && count <= MAX_LOOKUP_COMPONENTS
      modifies file, result, this`root
      ensures Valid() && root == (if dir.InRoot? then server.root else old(root))
      ensures Answered(old(From(dir)), count)
      ensures var trail := Trail(server, old(From(dir)), name[..count]);
        forall i :: |trail| <= i < file.Length ==> file[i] == old(file[i])
    {
      var fh := From(dir);
      ghost var from, comps := fh, name[..count];
      ghost var trail := Trail(server, from, comps);
      if dir.InRoot? {
        root := server.root;
      }
      var i := 0;
      while i < count
        invariant i <= |trail| && i <= count && fh == Before(from, trail, i)
        invariant name[..count] == comps
        invariant root == (if dir.InRoot? then server.root else old(root))
        invariant file[..i] == trail[..i] && (forall j :: i <= j < file.Length ==> file[j] == old(file[j]))
        invariant forall j :: 0 <= j < i ==> result[j] == Entry(trail[j])
      {
        TrailSteps(server, from, comps, i);
        var step := server.lookup(fh, name[i]);
        result[i] := step;
        if !step.Entry? {
          return;
        }
        file[i] := step.fh;
        fh := step.fh;
        i := i + 1;
      }
    }

    /** The slots hold the answers of the compound that starts at `from`. */
    ghost predicate Answered(from: Fh, count: nat)
      requires Valid() && count <= MAX_LOOKUP_COMPONENTS
      reads file, name, result
    {
      var comps := name[..count];
      var trail := Trail(server, from, comps);
      var k := |trail|;
      && file[..k] == trail && (forall i :: 0 <= i < k ==> result[i] == Entry(trail[i]))
      && (k < count ==> result[k] == server.lookup(Before(from, trail, k), comps[k]) && !result[k].Entry?)
    }

    /** nfs41_name_cache_insert */
    method Learn(p: Path, b: Binding)
      modifies this`learned
      ensures learned == old(learned)[p := b]
    {
      learned := learned[p := b];
    }

    lemma LearnedOneMore(from: Fh, at: Path, count: nat, i: nat, was: Names)
      requires Valid() && count <= MAX_LOOKUP_COMPONENTS && Answered(from, count)
      requires i < count && i <= |Trail(server, from, name[..count])|
      ensures was + Seen(server, from, at, name[..count][..i + 1]) ==
              Taught(was + Seen(server, from, at, name[..count][..i]), result[i], at + name[..count][..i + 1])
      ensures result[i].Entry? <==> i < |Trail(server, from, name[..count])|
      ensures result[i].Entry? ==> file[i] == result[i].fh
    {
      hide Seen, Trail, Taught;
      SeenOneMore(server, from, at, name[..count], i);
      TrailSteps(server, from, name[..count], i);
      TaughtLast(was, Seen(server, from, at, name[..count][..i]), result[i], at + name[..count][..i + 1]);
    }

    /** What the `i`-th answer teaches goes into the name cache. */
    method LearnAnswer(at: Path, count: nat, i: nat, ghost from: Fh, ghost was: Names)
      requires Valid() && i < count <= MAX_LOOKUP_COMPONENTS && Answered(from, count)
      requires i <= |Trail(server, from, name[..count])|
      requires learned == was + Seen(server, from, at, name[..count][..i])
      modifies this`learned
      ensures learned == was + Seen(server, from, at, name[..count][..i + 1])
      ensures result[i].Entry? <==> i < |Trail(server, from, name[..count])|
    {
      LearnedOneMore(from, at, count, i, was);
      hide Answered, Seen, Trail;
      assert name[..i + 1] == name[..count][..i + 1];
      match result[i] {
        case NoEnt => Learn(at + name[..i + 1], Negative);
        case Entry(_) => Learn(at + name[..i + 1], Positive(file[i]));
        case _ =>
      }
    }

    /** The slots that server_lookup picks after `k` of `count` components. */
    ghost predicate Picked(dir: Ref, count: nat, k: nat, status: Status, parent: Option<Ref>, target: Option<Ref>)
      requires Valid() && k <= count <= MAX_LOOKUP_COMPONENTS
      reads result
    {
      && (parent.Some? ==> Points(parent.value)) && (target.Some? ==> Points(target.value))
      && (k == count ==>
            && status == NoError
            && target == Some(if count == 0 then dir else InSlot(count - 1))
            && parent == (if count == 0 then None else if count == 1 then Some(dir) else Some(InSlot(count - 2))))
      && (k < count ==>
            && Reports(status, result[k], k == count - 1) && target == None
            && (result[k].SymLink? || k == count - 1 ==> parent == Some(if k == 0 then dir else InSlot(k - 1))))
    }

    /** The outcome of a compound, as handles. */
    ghost predicate Means(dir: Ref, count: nat, outcome: Outcome, status: Status, parent: Option<Ref>, target: Option<Ref>)
      requires (parent.Some? ==> Points(parent.value)) && (target.Some? ==> Points(target.value))
      reads this`root, file
    {
      match outcome
      case Resolved(t, p) =>
        && status == NoError && target.Some? && At(target.value) == t
        && (count > 0 ==> parent.Some? && Some(At(parent.value)) == if count == 1 && dir == InSlot(0) then Some(t) else p)
      case Stopped(step, d, left) =>
        && Reports(status, step, left == 1)
        && (step.SymLink? || left == 1 ==> parent.Some? && At(parent.value) == d)
    }

    lemma PickedMeans(dir: Ref, count: nat, from: Fh, status: Status, parent: Option<Ref>, target: Option<Ref>)
      requires Valid() && Points(dir) && count <= MAX_LOOKUP_COMPONENTS && Answered(from, count)
      requires Picked(dir, count, |Trail(server, from, name[..count])|, status, parent, target)
      requires Trail(server, from, name[..count]) == [] || (count == 1 && dir != InSlot(0)) ==> At(dir) == from
      ensures Means(dir, count, Walk(server, from, None, name[..count]), status, parent, target)
    {
      var comps := name[..count];
      var trail := Trail(server, from, comps);
      WalkIsTrail(server, from, None, comps);
      hide Walk, Trail, Reports;
      assert forall i :: 0 <= i < |trail| ==> file[i] == trail[i];
    }

    /** The loop of server_lookup over the answers: each goes into the name
        cache, and the slots of the target and its parent are picked. */
    method ReadAnswers(dir: Ref, at: Path, count: nat, ghost from: Fh)
      returns (status: Status, parent: Option<Ref>, target: Option<Ref>)
      requires Valid() && Points(dir) && count <= MAX_LOOKUP_COMPONENTS && Answered(from, count)
      modifies this`learned
      ensures learned == old(learned) + Seen(server, from, at, name[..count])
      ensures Picked(dir, count, |Trail(server, from, name[..count])|, status, parent, target)
    {
      ghost var comps := name[..count];
      ghost var k := |Trail(server, from, comps)|;
      hide Answered, Seen, Trail, MapLookupError, Picked;
      parent, target := None, None;
      if count == 0 {
        target := Some(dir);
      } else if count == 1 {
        parent := Some(dir);
      }
      var i, here := 0, dir;
      SeenNothing(server, from, at, comps, learned);
      while i < count
        invariant i <= k && here == (if i == 0 then dir else InSlot(i - 1))
        invariant learned == old(learned) + Seen(server, from, at, comps[..i])
        invariant target == if count == 0 then Some(dir) else if i == count then Some(InSlot(count - 1)) else None
        invariant parent == if count == 1 then Some(dir) else if count >= 2 && i >= count - 1 then Some(InSlot(count - 2)) else None
      {
        LearnAnswer(at, count, i, from, old(learned));
        var step := result[i];
        if step.SymLink? {
          parent := Some(here);
        }
        if !step.Entry? {
          SeenStops(server, from, at, comps);
          StoppedPick(dir, count, i, parent);
          return MapLookupError(step, i == count - 1), parent, target;
        }
        here := InSlot(i);
        if i == count - 1 {
          target := Some(here);
        } else if i == count - 2 {
          parent := Some(here);
        }
        i := i + 1;
      }
      assert comps[..i] == comps;
      status := NoError;
      DonePick(dir, count, parent, target);
    }

    lemma StoppedPick(dir: Ref, count: nat, k: nat, parent: Option<Ref>)
      requires Valid() && Points(dir) && k < count <= MAX_LOOKUP_COMPONENTS
      requires parent == if result[k].SymLink? then Some(if k == 0 then dir else InSlot(k - 1))
                         else if count == 1 then Some(dir)
                         else if k >= count - 1 then Some(InSlot(count - 2)) else None
      ensures Picked(dir, count, k, MapLookupError(result[k], k == count - 1), parent, None)
    {
      hide MapLookupError, Reports;
      ErrorReports(result[k], k == count - 1);
    }

    lemma DonePick(dir: Ref, count: nat, parent: Option<Ref>, target: Option<Ref>)
      requires Valid() && Points(dir) && count <= MAX_LOOKUP_COMPONENTS
      requires target == if count == 0 then Some(dir) else Some(InSlot(count - 1))
      requires parent == if count == 1 then Some(dir) else if count >= 2 then Some(InSlot(count - 2)) else None
      ensures Picked(dir, count, count, NoError, parent, target)
    {
    }

    /** server_lookup: the status and the handles are those of resolving the
        components one at a time, except that a directory in slot 0 is no
        longer there once a single component has been looked up in it. What
        the answers teach goes into the name cache. */
    method ServerLookup(dir: Ref, at: Path, count: nat) returns (status: Status, parent: Option<Ref>, target: Option<Ref>)
      requires Valid() && Points(dir) && count <= MAX_LOOKUP_COMPONENTS
      modifies file, result, this`root, this`learned
      ensures Valid() && (parent.Some? ==> Points(parent.value)) && (target.Some? ==> Points(target.value))
      ensures learned == old(learned) + RootSeen(server, dir.InRoot?) + Seen(server, old(From(dir)), at, name[..count])
      ensures count > 0 ==> target.None? || target == Some(InSlot(count - 1))
      ensures count == 0 ==> status == NoError && target == Some(dir) && parent == None && At(dir) == old(From(dir))
      ensures Means(dir, count, Walk(server, old(From(dir)), None, name[..count]), status, parent, target)
    {
      hide Walk, Trail, Seen, MapLookupError;
      ghost var from := From(dir);
      LookupRpc(dir, count);
      if dir.InRoot? {
        Learn([], Positive(root));
      }
      status, parent, target := ReadAnswers(dir, at, count, from);
      PickedMeans(dir, count, from, status, parent, target);
      if count == 0 {
        assert name[..count] == [];
      }
    }

    /** get_component_array */
    method Load(comps: Path, pos: nat, max: nat) returns (count: nat)
      requires Valid() && pos <= |comps| && max <= MAX_LOOKUP_COMPONENTS
      modifies name
      ensures Valid() && count == (if |comps| - pos < max then |comps| - pos else max)
      ensures name[..count] == comps[pos..pos + count]
    {
      count := 0;
      while count < max && pos + count < |comps|
        invariant count <= max && pos + count <= |comps|
        invariant name[..count] == comps[pos..pos + count]
      {
        name[count] := comps[pos + count];
        count := count + 1;
      }
    }

    /** The first `pos` components have been resolved: `dir` points to the handle
        reached and `parent` to the one before it. */
    ghost predicate Reached(comps: Path, pos: nat, max: nat, dir: Ref, parent: Option<Ref>, above: Option<Fh>)
      reads this`root, file
    {
      && Valid() && Points(dir) && pos <= |comps| && (start.Some? ==> comps != [])
      && (pos == 0 ==> dir == (if start.Some? then InStart else InRoot) && parent == None)
      && (pos > 0 ==> max > 0 && (dir == InSlot(max - 1) || pos == |comps|) && dir.InSlot? && parent.Some? && Points(parent.value))
      && Walk(server, Origin(), None, comps[..pos]) == Resolved(From(dir), above)
      && (pos > 0 ==> Some(At(parent.value)) == Clobbered(max, pos, Resolved(From(dir), above)).parent)
    }

    function Origin(): Fh {
      if start.Some? then start.value else server.root
    }

    /** The outcome of resolving the path one component at a time. */
    function Whole(comps: Path): Outcome {
      Walk(server, Origin(), None, comps)
    }

    function AllSeen(comps: Path): Names {
      RootSeen(server, start.None?) + Seen(server, Origin(), base, comps)
    }

    function Copied(r: Option<Ref>): Option<Fh>
      requires r.Some? ==> Points(r.value)
      reads this`root, file
    {
      if r.Some? then Some(At(r.value)) else None
    }

    lemma SeenChunk(comps: Path, pos: nat, count: nat, fh: Fh, above: Option<Fh>)
      requires 0 < count && pos + count <= |comps|
      requires Walk(server, Origin(), None, comps[..pos]) == Resolved(fh, above)
      ensures Seen(server, Origin(), base, comps[..pos + count]) ==
              Seen(server, Origin(), base, comps[..pos]) + Seen(server, fh, base + comps[..pos], comps[pos..pos + count])
      ensures Walk(server, fh, None, comps[pos..pos + count]).Stopped? ==>
          Seen(server, Origin(), base, comps) == Seen(server, Origin(), base, comps[..pos + count])
    {
      hide Walk, Seen;
      assert comps[..pos + count] == comps[..pos] + comps[pos..pos + count];
      SeenOn(server, Origin(), None, base, comps[..pos], comps[pos..pos + count]);
      Chunk(server, Origin(), comps, pos, count, fh, above);
      assert comps == comps[..pos + count] + comps[pos + count..];
      SeenOn(server, Origin(), None, base, comps[..pos + count], comps[pos + count..]);
    }

    /** One round of the loop. */
    method Round(comps: Path, pos: nat, count: nat, max: nat, dir: Ref, ghost above: Option<Fh>, ghost was: Option<Ref>)
      returns (status: Status, parent: Option<Ref>, target: Option<Ref>, ghost above': Option<Fh>)
      requires Reached(comps, pos, max, dir, was, above) && 0 < count <= max <= MAX_LOOKUP_COMPONENTS && pos + count <= |comps|
      requires count == max || pos + count == |comps|
      requires name[..count] == comps[pos..pos + count]
      requires learned == if pos == 0 then map[] else AllSeen(comps[..pos])
      modifies file, result, this`root, this`learned
      ensures Valid() && (parent.Some? ==> Points(parent.value))
      ensures status == NoError ==>
          target.Some? && Reached(comps, pos + count, max, target.value, parent, above') && learned == AllSeen(comps[..pos + count])
      ensures status != NoError ==>
          var copied := status.Reparse? || (status.FileNotFound? && pos + count == |comps|);
          && Agrees(Whole(comps), status, if copied then Copied(parent) else None, None) && Whole(comps).Stopped?
          && learned == AllSeen(comps)
    {
      hide Walk, Agrees, Seen;
      Chunk(server, Origin(), comps, pos, count, From(dir), above);
      SeenChunk(comps, pos, count, From(dir), above);
      ghost var outcome := Walk(server, From(dir), None, comps[pos..pos + count]);
      ghost var before, fresh' := learned, Seen(server, From(dir), base + comps[..pos], comps[pos..pos + count]);
      status, parent, target := ServerLookup(dir, base + comps[..pos], count);
      assert learned == AllSeen(comps[..pos + count]) by {
        SeenNothing(server, Origin(), base, comps, map[]);
        LearnedChunk(server, start.None?, Seen(server, Origin(), base, comps[..pos]), fresh', before, learned, pos == 0);
      }
      above' := None;
      if outcome.Stopped? {
        StopAgrees(outcome, status, |comps| - (pos + count), Copied(parent));
      } else {
        above' := outcome.parent;
      }
    }

    method Run(comps: Path, max: nat) returns (status: Status, parentOut: Option<Fh>, targetOut: Option<Fh>)
      requires Valid() && max <= MAX_LOOKUP_COMPONENTS && (start.Some? ==> comps != []) && learned == map[]
      modifies file, name, result, this`root, this`learned
      ensures max > 0 ==> Agrees(Clobbered(max, |comps|, Whole(comps)), status, parentOut, targetOut) && learned == AllSeen(comps)
      ensures max == 0 ==> status == NoError && parentOut == None && targetOut == if start.Some? then None else Some(server.root)
    {
      hide Walk, Agrees, Seen;
      parentOut, targetOut := None, None;
      var dir := if start.Some? then InStart else InRoot;
      var parent, target: Option<Ref> := None, None;
      var pos := 0;
      status := NoError;
      ghost var above: Option<Fh> := None;
      WalkNothing(server, Origin(), comps);
      var count := Load(comps, pos, max);
      while count > 0
        invariant Reached(comps, pos, max, dir, parent, above) && status == NoError
        invariant count == (if |comps| - pos < max then |comps| - pos else max) && name[..count] == comps[pos..pos + count]
        invariant target == if pos > 0 then Some(dir) else None
        invariant learned == if pos == 0 then map[] else AllSeen(comps[..pos])
        decreases |comps| - pos
      {
        status, parent, target, above := Round(comps, pos, count, max, dir, above, parent);
        pos := pos + count;
        if status.Reparse? || (status.FileNotFound? && pos == |comps|) {
          parentOut := Copied(parent);
          return;
        }
        if !status.NoError? {
          return;
        }
        dir := target.value;
        count := Load(comps, pos, max);
      }
      if max > 0 {
        assert comps[..pos] == comps;
        EndAgrees(max, |comps|, From(dir), above);
      }
      if dir.InRoot? {
        SeenNothing(server, server.root, base, name[..], map[]);
        SeenNothing(server, server.root, base, comps, map[]);
        status, parent, target := ServerLookup(dir, base, 0);
      }
      targetOut := Copied(target);
      parentOut := Copied(parent);
    }
  }

  lemma LearnedChunk(server: Server, fromRoot: bool, sofar: Names, chunk: Names, before: Names, after: Names, first: bool)
    requires before == if first then map[] else RootSeen(server, fromRoot) + sofar
    requires after == before + RootSeen(server, first && fromRoot) + chunk
    requires first ==> sofar == map[]
    ensures after == RootSeen(server, fromRoot) + (sofar + chunk)
  {
  }

  // The loop

  /** The outcome of the loop, in terms of resolving the path one component at a
      time: `parent` and `target` are what it copies out. */
  ghost predicate Agrees(outcome: Outcome, status: Status, parent: Option<Fh>, target: Option<Fh>) {
    match outcome
    case Resolved(t, p) => status == NoError && target == Some(t) && parent == p
    case Stopped(step, d, left) =>
      && target == None
      && (step.NoEnt? ==> status == FileNotFound || status == PathNotFound)
      && (step.NoEnt? && left == 1 ==> status == FileNotFound && parent == Some(d))
      && (step.SymLink? ==> status == Reparse && parent == Some(d))
      && (step.Moved? ==> status == FilesystemAbsent)
      && (step.Failed? ==> status == Other(step.code))
  }

  /** The status tells how resolving one at a time ends. */
  ghost predicate Tells(status: Status, outcome: Outcome) {
    && (status == NoError <==> outcome.Resolved?)
    && (status == Reparse <==> outcome.Stopped? && outcome.step == SymLink)
    && (status == FilesystemAbsent <==> outcome.Stopped? && outcome.step == Moved)
    && (forall code :: status == Other(code) <==> outcome.Stopped? && outcome.step == Failed(code))
    && (status == FileNotFound || status == PathNotFound <==> outcome.Stopped? && outcome.step == NoEnt)
  }

  lemma StatusTells(outcome: Outcome, status: Status, parent: Option<Fh>, target: Option<Fh>)
    requires Agrees(WithParent(outcome, parent), status, parent, target) && (outcome.Stopped? ==> !outcome.step.Entry?)
    ensures Tells(status, outcome)
  {
  }

  lemma WalkParent(server: Server, fh: Fh, parent: Option<Fh>, comps: Path)
    requires comps != []
    ensures Walk(server, fh, parent, comps) == Walk(server, fh, None, comps)
  {
  }

  /** With room for one component only, the parent of a path of several ends up
      in the slot of the target. */
  function Clobbered(max: nat, n: nat, outcome: Outcome): Outcome {
    if max == 1 && n >= 2 && outcome.Resolved? then outcome.(parent := Some(outcome.target)) else outcome
  }

  /** One compound takes the walk from `pos` to `pos + count`. */
  lemma Chunk(server: Server, from: Fh, comps: Path, pos: nat, count: nat, fh: Fh, parent: Option<Fh>)
    requires 0 < count && pos + count <= |comps|
    requires Walk(server, from, None, comps[..pos]) == Resolved(fh, parent)
    ensures Walk(server, from, None, comps[..pos + count]) == Walk(server, fh, None, comps[pos..pos + count])
    ensures Walk(server, fh, None, comps[pos..pos + count]).Stopped? ==>
        var stop := Walk(server, fh, None, comps[pos..pos + count]);
        Walk(server, from, None, comps) == stop.(left := stop.left + (|comps| - (pos + count)))
  {
    hide Walk;
    var a, b, c := comps[..pos], comps[pos..pos + count], comps[pos + count..];
    assert comps[..pos + count] == a + b;
    WalkOn(server, from, None, a, b);
    WalkParent(server, fh, parent, b);
    assert comps == comps[..pos + count] + c;
    WalkOn(server, from, None, comps[..pos + count], c);
  }

  /** What the loop reports when a compound stops, `rest` components short of the
      end of the path. */
  lemma StopAgrees(stop: Outcome, status: Status, rest: nat, parent: Option<Fh>)
    requires stop.Stopped? && !stop.step.Entry? && stop.left > 0 && Reports(status, stop.step, stop.left == 1)
    requires stop.step.SymLink? || stop.left == 1 ==> parent == Some(stop.dir)
    ensures var copied := status.Reparse? || (status.FileNotFound? && rest == 0);
      status != NoError && Agrees(stop.(left := stop.left + rest), status, if copied then parent else None, None)
  {
  }

  lemma EndAgrees(max: nat, n: nat, target: Fh, parent: Option<Fh>)
    ensures var outcome := Clobbered(max, n, Resolved(target, parent));
      Agrees(outcome, NoError, outcome.parent, Some(target))
  {
  }

  /** The subtraction wraps, and the components overrun their slots, exactly if
      the session allows fewer than four operations. */
  lemma FewComponentsIff(caMaxOperations: nat)
    ensures MaxComponents(caMaxOperations) <= MAX_LOOKUP_COMPONENTS <==> caMaxOperations >= 4
  {
  }

  /** server_lookup_loop, for every limit on the operations of a compound: the
      path is `base`, which `start` is the handle of, and then `comps`. */
  method ServerLookupLoop(server: Server, caMaxOperations: nat, start: Option<Fh>, base: Path, comps: Path)
    returns (status: Status, parentOut: Option<Fh>, targetOut: Option<Fh>, learned: Names)
    requires caMaxOperations >= 4 && (start.Some? ==> comps != [])
    ensures var max, origin := MaxComponents(caMaxOperations), if start.Some? then start.value else server.root;
      && (max > 0 ==>
            && Agrees(Clobbered(max, |comps|, Walk(server, origin, None, comps)), status, parentOut, targetOut)
            && learned == RootSeen(server, start.None?) + Seen(server, origin, base, comps))
      && (max == 0 ==> status == NoError && parentOut == None && targetOut == if start.Some? then None else Some(server.root))
      && (start.None? ==> Agrees(Reported(max, server, comps), status, parentOut, targetOut))
  {
    hide Walk, Seen;
    FewComponentsIff(caMaxOperations);
    var r := new Resolver(server, start, base);
    status, parentOut, targetOut := r.Run(comps, MaxComponents(caMaxOperations));
    learned := r.learned;
  }

  lemma WalkNothing(server: Server, fh: Fh, comps: Path)
    ensures Walk(server, fh, None, comps[..0]) == Resolved(fh, None)
  {
  }

  // The limits under which the loop is right

  /** A server on which every name exists and every handle is new. */
  function Endless(): Server {
    Server((fh: Fh, c: Component) => Entry(fh + [1]), [])
  }

  lemma EndlessWalk()
    ensures Walk(Endless(), [], None, ["a", "b"]) == Resolved([1, 1], Some([1]))
  {
    var server := Endless();
    assert Walk(server, [1, 1], Some([1]), []) == Resolved([1, 1], Some([1]));
    assert server.lookup([1], "b") == Entry([1, 1]);
    assert ["b"][1..] == [];
    assert Walk(server, [1], Some([]), ["b"]) == Resolved([1, 1], Some([1]));
    assert server.lookup([], "a") == Entry([1]);
    assert ["a", "b"][1..] == ["b"];
  }

  /** What the loop makes of a path from the root. With no room for a component
      it does not look at the path at all. */
  function Reported(max: nat, server: Server, comps: Path): Outcome {
    if max == 0 then Resolved(server.root, None)
    else Clobbered(max, |comps|, Walk(server, server.root, None, comps))
  }

  /** The outcome up to the parent of a path that resolves. */
  function WithParent(outcome: Outcome, parent: Option<Fh>): Outcome {
    if outcome.Resolved? then outcome.(parent := parent) else outcome
  }

  /** Success, target and the reason of a failure are those of resolving one at a time. */
  predicate TargetRight(max: nat, server: Server, comps: Path) {
    WithParent(Reported(max, server, comps), None) == WithParent(Walk(server, server.root, None, comps), None)
  }

  /** And the parent, too. */
  predicate ParentRight(max: nat, server: Server, comps: Path) {
    Reported(max, server, comps) == Walk(server, server.root, None, comps)
  }

  lemma ParentWrong()
    ensures !ParentRight(1, Endless(), ["a", "b"])
  {
    hide Walk;
    EndlessWalk();
    assert [1, 1] != [1];
  }

  lemma RootIsWrong()
    ensures !TargetRight(0, Endless(), ["a", "b"]) && !ParentRight(0, Endless(), ["a", "b"])
  {
    hide Walk;
    EndlessWalk();
    assert Endless().root == [];
  }

  lemma RoomFor(caMaxOperations: nat)
    requires caMaxOperations >= 4
    ensures MaxComponents(caMaxOperations) == 0 <==> caMaxOperations < 7
    ensures MaxComponents(caMaxOperations) == 1 <==> 7 <= caMaxOperations < 10
  {
  }

  /** The target is right on every server and every path exactly if a compound
      has room for one component. */
  lemma TargetRightIff(caMaxOperations: nat)
    requires caMaxOperations >= 4
    ensures (forall server: Server, comps: Path :: TargetRight(MaxComponents(caMaxOperations), server, comps)) <==> caMaxOperations >= 7
  {
    var max := MaxComponents(caMaxOperations);
    RoomFor(caMaxOperations);
    hide Walk, MaxComponents, Endless;
    if caMaxOperations < 7 {
      RootIsWrong();
    } else {
      forall server: Server, comps: Path ensures TargetRight(max, server, comps) {
      }
    }
  }

  /** The parent is right on every server and every path exactly if a compound
      has room for two components. */
  lemma ParentRightIff(caMaxOperations: nat)
    requires caMaxOperations >= 4
    ensures (forall server: Server, comps: Path :: ParentRight(MaxComponents(caMaxOperations), server, comps)) <==> caMaxOperations >= 10
  {
    var max := MaxComponents(caMaxOperations);
    RoomFor(caMaxOperations);
    hide Walk, MaxComponents, Endless;
    if caMaxOperations < 7 {
      RootIsWrong();
    } else if caMaxOperations < 10 {
      ParentWrong();
    } else {
      forall server: Server, comps: Path ensures ParentRight(max, server, comps) {
      }
    }
  }

  // With the name cache in front

  predicate Shows(visible: Names, p: Path) {
    p in visible && visible[p].Positive?
  }

  predicate Denies(visible: Names, p: Path) {
    p in visible && visible[p].Negative?
  }

  /** name_cache_lookup, on the entries that have not expired: the longest prefix
      all of whose entries are positive. */
  method CacheLookup(visible: Names, comps: Path) returns (status: Status, taken: nat, parent: Option<Fh>, target: Option<Fh>, negative: bool)
    ensures taken <= |comps|
    ensures status == NoError <==> target.Some?
    ensures status == NoError ==> taken == |comps| && Shows(visible, comps) && target == Some(visible[comps].fh)
    ensures status == NoError ==> parent == if comps == [] then None
                                            else if Shows(visible, comps[..|comps| - 1]) then Some(visible[comps[..|comps| - 1]].fh) else None
    ensures status == NoError && comps != [] ==> Shows(visible, comps[..|comps| - 1])
    ensures status != NoError ==> (parent.Some? <==> Shows(visible, []))
    ensures status != NoError && parent.None? ==> taken == 0 && (negative ==> Denies(visible, []))
    ensures status != NoError && parent.Some? ==>
        && taken < |comps| && Shows(visible, comps[..taken]) && parent == Some(visible[comps[..taken]].fh)
        && !Shows(visible, comps[..taken + 1])
        && negative == Denies(visible, comps[..taken + 1])
        && status == (if taken + 1 == |comps| then FileNotFound else PathNotFound)
  {
    parent, target, negative := None, None, false;
    if !Shows(visible, []) {
      return PathNotFound, 0, None, None, Denies(visible, []);
    }
    target := Some(visible[[]].fh);
    taken := 0;
    assert comps[..0] == [];
    while taken < |comps|
      invariant taken <= |comps| && Shows(visible, comps[..taken]) && target == Some(visible[comps[..taken]].fh)
      invariant parent == if taken == 0 then None
                          else if Shows(visible, comps[..taken - 1]) then Some(visible[comps[..taken - 1]].fh) else None
      invariant taken > 0 ==> Shows(visible, comps[..taken - 1])
    {
      parent := target;
      var next := comps[..taken + 1];
      if !Shows(visible, next) {
        return if taken + 1 == |comps| then FileNotFound else PathNotFound, taken, parent, None, Denies(visible, next);
      }
      target := Some(visible[next].fh);
      taken := taken + 1;
    }
    assert comps[..taken] == comps;
    status := NoError;
  }

  lemma CachedTarget(server: Server, visible: Names, comps: Path)
    requires Truthful(server, visible) && Shows(visible, comps)
    requires comps != [] ==> Shows(visible, comps[..|comps| - 1])
    ensures Walk(server, server.root, None, comps) ==
            Resolved(visible[comps].fh, if comps == [] then None else Some(visible[comps[..|comps| - 1]].fh))
  {
    if comps != [] {
      var n := |comps| - 1;
      assert comps == comps[..n] + [comps[n]];
      WalkOn(server, server.root, None, comps[..n], [comps[n]]);
    }
  }

  lemma CachedPrefix(server: Server, visible: Names, comps: Path, taken: nat)
    requires Truthful(server, visible) && taken < |comps| && Shows(visible, comps[..taken])
    ensures Walk(server, server.root, None, comps[..taken]).Resolved?
    ensures Walk(server, server.root, None, comps[..taken]).target == visible[comps[..taken]].fh
    ensures Walk(server, server.root, None, comps) == Walk(server, visible[comps[..taken]].fh, None, comps[taken..])
    ensures Denies(visible, comps[..taken + 1]) ==>
        Walk(server, server.root, None, comps) == Stopped(NoEnt, visible[comps[..taken]].fh, |comps| - taken)
  {
    var a, b := comps[..taken], comps[taken..];
    assert comps == a + b;
    WalkOn(server, server.root, None, a, b);
    var outcome := Walk(server, server.root, None, a);
    WalkParent(server, outcome.target, outcome.parent, b);
    if Denies(visible, comps[..taken + 1]) {
      assert comps[..taken + 1] == a + [comps[taken]];
      WalkOn(server, server.root, None, a, [comps[taken]]);
    }
  }

  lemma RootExists(server: Server, visible: Names)
    requires Truthful(server, visible)
    ensures !Denies(visible, [])
  {
    assert Walk(server, server.root, None, []) == Resolved(server.root, None);
  }

  lemma LearnedIsTrue(server: Server, fromRoot: bool, visible: Names, seen: Names)
    requires Truthful(server, visible) && Truthful(server, seen)
    ensures Truthful(server, visible + (RootSeen(server, fromRoot) + seen))
  {
    assert Walk(server, server.root, None, []) == Resolved(server.root, None);
  }

  /** nfs41_lookup: with a truthful cache, the status and the handles are those
      of resolving the whole path at the server, one component at a time, and
      what the lookup adds to the cache leaves it truthful. With fewer than ten
      operations in a compound only the parent can differ. */
  method Lookup(server: Server, visible: Names, caMaxOperations: nat, comps: Path)
    returns (status: Status, parent: Option<Fh>, target: Option<Fh>, learned: Names)
    requires caMaxOperations >= 4 && Truthful(server, visible)
    ensures caMaxOperations >= 10 ==> Agrees(Walk(server, server.root, None, comps), status, parent, target)
    ensures caMaxOperations >= 7 ==> Agrees(WithParent(Walk(server, server.root, None, comps), parent), status, parent, target)
    ensures caMaxOperations >= 7 ==> Tells(status, Walk(server, server.root, None, comps))
    ensures caMaxOperations >= 7 ==> Truthful(server, visible + learned)
    ensures Shows(visible, comps) && (forall n :: 0 <= n < |comps| ==> Shows(visible, comps[..n])) ==>
        status == NoError && target == Some(visible[comps].fh) && learned == map[]
    ensures caMaxOperations < 7 && !Shows(visible, comps) && status == NoError ==> target == if Shows(visible, []) then None else Some(server.root)
    ensures caMaxOperations < 7 && status != NoError ==> exists n :: 0 < n <= |comps| && Denies(visible, comps[..n])
  {
    hide Walk, Seen, Truthful;
    learned := map[];
    var taken, negative;
    status, taken, parent, target, negative := CacheLookup(visible, comps);
    assert visible + map[] == visible;
    assert comps[..0] == [] && comps[..|comps|] == comps;
    if status == NoError {
      CachedTarget(server, visible, comps);
      StatusTells(Walk(server, server.root, None, comps), status, parent, target);
      return;
    }
    if parent.Some? {
      CachedPrefix(server, visible, comps, taken);
    } else {
      RootExists(server, visible);
      WalkNothing(server, server.root, comps);
      assert comps[taken..] == comps;
    }
    if negative {
      StatusTells(Walk(server, server.root, None, comps), status, parent, target);
      return;
    }
    ghost var origin := if parent.Some? then parent.value else server.root;
    SeenIsTrue(server, origin, comps[..taken], comps[taken..]);
    LearnedIsTrue(server, parent.None?, visible, Seen(server, origin, comps[..taken], comps[taken..]));
    var above;
    status, above, target, learned := ServerLookupLoop(server, caMaxOperations, parent, comps[..taken], comps[taken..]);
    CompoundFits(caMaxOperations, true, 0);
    if above.Some? {
      parent := above;
    }
    if caMaxOperations >= 7 {
      StatusTells(Walk(server, server.root, None, comps), status, parent, target);
    }
  }
}
