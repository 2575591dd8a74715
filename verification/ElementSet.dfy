/** The last-writer-wins element set: two maps of latest stamps, bumped in place. */
module ElementSet {
  import opened Text
  import opened SyncLattice

  type Element = Str

  type Stamps = map<Element, Stamp>

  datatype SetBias = AddBias | RemoveBias

  /** `toJSON`. */
  datatype SetState = SetState(adds: Stamps, removes: Stamps, bias: SetBias)

  /** The stamps that `add`, `remove` and merges have brought in. */
  datatype Op = Op(element: Element, stamp: Stamp)

  type Seen = set<Op>

  /** `stamps` holds the latest of the stamps seen for each element, and nothing else. */
  ghost predicate IsLatest(stamps: Stamps, seen: Seen) {
    && (forall e :: e in stamps ==> Op(e, stamps[e]) in seen)
    && (forall op :: op in seen ==> op.element in stamps && op.stamp <= stamps[op.element])
  }

  lemma LatestIsUnique(a: Stamps, b: Stamps, seen: Seen)
    requires IsLatest(a, seen) && IsLatest(b, seen)
    ensures a == b
  {
    forall e | e in a ensures e in b && a[e] <= b[e] {
      assert Op(e, a[e]) in seen;
    }
    forall e | e in b ensures e in a && b[e] <= a[e] {
      assert Op(e, b[e]) in seen;
    }
  }

  /** Membership under the rule and the tie bias. */
  predicate Member(adds: Stamps, removes: Stamps, bias: SetBias, e: Element) {
    && e in adds
    && (e !in removes || adds[e] > removes[e] || (adds[e] == removes[e] && bias.AddBias?))
  }

  /** `bump`: keep the greater stamp. */
  function Bump(stamps: Stamps, e: Element, t: Stamp): Stamps {
    if e !in stamps || t > stamps[e] then stamps[e := t] else stamps
  }

  /** Bumping by every entry of another map, in whatever order. */
  function BumpEach(stamps: Stamps, others: Stamps): Stamps {
    map e | e in stamps.Keys + others.Keys ::
      if e !in stamps || (e in others && others[e] > stamps[e]) then others[e] else stamps[e]
  }

  class LwwElementSet {
    var adds: Stamps
    var removes: Stamps
    const bias: SetBias

    constructor (bias: SetBias)
      ensures this.bias == bias && adds == map[] && removes == map[]
    {
      this.bias := bias;
      adds, removes := map[], map[];
    }

    method Add(e: Element, t: Stamp)
      modifies this
      ensures adds == Bump(old(adds), e, t) && removes == old(removes)
    {
      adds := Bump(adds, e, t);
    }

    method Remove(e: Element, t: Stamp)
      modifies this
      ensures adds == old(adds) && removes == Bump(old(removes), e, t)
    {
      removes := Bump(removes, e, t);
    }

    /** `has`, with its early returns. */
    method Has(e: Element) returns (r: bool)
      ensures r == Member(adds, removes, bias, e)
    {
      if e !in adds {
        return false;
      }
      if e !in removes {
        return true;
      }
      if adds[e] == removes[e] {
        return bias.AddBias?;
      }
      r := adds[e] > removes[e];
    }

    /** One of the two loops of `merge`, and of `fromJSON`. */
    static method BumpAll(stamps: Stamps, others: Stamps) returns (r: Stamps)
      ensures r == BumpEach(stamps, others)
    {
      r := stamps;
      var todo := others.Keys;
      while todo != {}
        invariant todo <= others.Keys
        invariant forall e :: e in r <==> e in stamps || (e in others && e !in todo)
        invariant forall e :: e in r && e !in todo ==> r[e] == BumpEach(stamps, others)[e]
        invariant forall e :: e in r && e in todo ==> r[e] == stamps[e]
        decreases todo
      {
        var e :| e in todo;
        r := Bump(r, e, others[e]);
        todo := todo - {e};
      }
    }

    method Merge(other: LwwElementSet)
      modifies this
      ensures adds == BumpEach(old(adds), old(other.adds))
      ensures removes == BumpEach(old(removes), old(other.removes))
    {
      var a := BumpAll(adds, other.adds);
      var r := BumpAll(removes, other.removes);
      adds, removes := a, r;
    }

    method ToJson() returns (s: SetState)
      ensures s == SetState(adds, removes, bias)
    {
      s := SetState(adds, removes, bias);
    }

    /** `fromJSON`: a fresh set, bumped by every entry of the snapshot. */
    static method FromJson(s: SetState) returns (r: LwwElementSet)
      ensures fresh(r) && r.bias == s.bias
      ensures r.adds == s.adds && r.removes == s.removes
    {
      r := new LwwElementSet(s.bias);
      var a := BumpAll(r.adds, s.adds);
      var d := BumpAll(r.removes, s.removes);
      assert BumpEach(map[], s.adds) == s.adds && BumpEach(map[], s.removes) == s.removes;
      r.adds, r.removes := a, d;
    }
  }

  // --- replicas ------------------------------------------------------------------

  /** How a replica's state came about: any mix of operations, merges and JSON round trips. */
  datatype Build =
    | Empty
    | Added(base: Build, e: Element, t: Stamp)
    | Removed(base: Build, e: Element, t: Stamp)
    | MergedWith(base: Build, other: Build)
    | Restored(base: Build)

  /** The two maps that the methods leave behind; a round trip bumps a fresh set by the snapshot. */
  function AddsOf(b: Build): Stamps {
    match b
    case Empty => map[]
    case Added(s, e, t) => Bump(AddsOf(s), e, t)
    case Removed(s, _, _) => AddsOf(s)
    case MergedWith(s, o) => BumpEach(AddsOf(s), AddsOf(o))
    case Restored(s) => BumpEach(map[], AddsOf(s))
  }

  function RemovesOf(b: Build): Stamps {
    match b
    case Empty => map[]
    case Added(s, _, _) => RemovesOf(s)
    case Removed(s, e, t) => Bump(RemovesOf(s), e, t)
    case MergedWith(s, o) => BumpEach(RemovesOf(s), RemovesOf(o))
    case Restored(s) => BumpEach(map[], RemovesOf(s))
  }

  /** The operations a replica has absorbed, its own and those of the sets merged into it. */
  ghost function AddedIn(b: Build): Seen {
    match b
    case Empty => {}
    case Added(s, e, t) => AddedIn(s) + {Op(e, t)}
    case Removed(s, _, _) => AddedIn(s)
    case MergedWith(s, o) => AddedIn(s) + AddedIn(o)
    case Restored(s) => AddedIn(s)
  }

  ghost function RemovedIn(b: Build): Seen {
    match b
    case Empty => {}
    case Added(s, _, _) => RemovedIn(s)
    case Removed(s, e, t) => RemovedIn(s) + {Op(e, t)}
    case MergedWith(s, o) => RemovedIn(s) + RemovedIn(o)
    case Restored(s) => RemovedIn(s)
  }

  lemma BumpIsLatest(stamps: Stamps, seen: Seen, e: Element, t: Stamp)
    requires IsLatest(stamps, seen)
    ensures IsLatest(Bump(stamps, e, t), seen + {Op(e, t)})
  {
  }

  lemma BumpEachIsLatest(stamps: Stamps, seen: Seen, others: Stamps, seenThere: Seen)
    requires IsLatest(stamps, seen) && IsLatest(others, seenThere)
    ensures IsLatest(BumpEach(stamps, others), seen + seenThere)
  {
  }

  /** The maps are always the per-element maxima of everything absorbed. */
  lemma {:induction false} MapsAreMaxima(b: Build)
    ensures IsLatest(AddsOf(b), AddedIn(b)) && IsLatest(RemovesOf(b), RemovedIn(b))
  {
    match b
    case Empty =>
    case Added(s, e, t) =>
      MapsAreMaxima(s);
      BumpIsLatest(AddsOf(s), AddedIn(s), e, t);
    case Removed(s, e, t) =>
      MapsAreMaxima(s);
      BumpIsLatest(RemovesOf(s), RemovedIn(s), e, t);
    case MergedWith(s, o) =>
      MapsAreMaxima(s);
      MapsAreMaxima(o);
      BumpEachIsLatest(AddsOf(s), AddedIn(s), AddsOf(o), AddedIn(o));
      BumpEachIsLatest(RemovesOf(s), RemovedIn(s), RemovesOf(o), RemovedIn(o));
    case Restored(s) =>
      MapsAreMaxima(s);
      assert BumpEach(map[], AddsOf(s)) == AddsOf(s);
      assert BumpEach(map[], RemovesOf(s)) == RemovesOf(s);
  }

  /** Replicas of equal bias that absorbed the same operations have the same members. */
  lemma ReplicasAgree(a: Build, b: Build, bias: SetBias, e: Element)
    requires AddedIn(a) == AddedIn(b) && RemovedIn(a) == RemovedIn(b)
    ensures Member(AddsOf(a), RemovesOf(a), bias, e) <==> Member(AddsOf(b), RemovesOf(b), bias, e)
    ensures Member(AddsOf(a), RemovesOf(a), bias, e) <==>
      exists t :: Op(e, t) in AddedIn(a) &&
                  forall u :: Op(e, u) in RemovedIn(a) ==> u < t || (u == t && bias.AddBias?)
  {
    MapsAreMaxima(a);
    MapsAreMaxima(b);
    LatestIsUnique(AddsOf(a), AddsOf(b), AddedIn(a));
    LatestIsUnique(RemovesOf(a), RemovesOf(b), RemovedIn(a));
    MemberByOps(AddsOf(a), RemovesOf(a), AddedIn(a), RemovedIn(a), bias, e);
  }

  /** Membership, read off the operations instead of the maps. */
  lemma MemberByOps(adds: Stamps, removes: Stamps, added: Seen, removed: Seen, bias: SetBias, e: Element)
    requires IsLatest(adds, added) && IsLatest(removes, removed)
    ensures Member(adds, removes, bias, e) <==>
      exists t :: Op(e, t) in added && forall u :: Op(e, u) in removed ==> u < t || (u == t && bias.AddBias?)
  {
    if e in adds {
      assert Op(e, adds[e]) in added;
    }
    if e in removes {
      assert Op(e, removes[e]) in removed;
    }
  }
}
