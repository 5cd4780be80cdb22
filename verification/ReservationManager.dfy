/** The strategies for choosing a memory space, and the manager as one thread sees it. */
module ReservationManager {
  import opened Sums
  import opened MemorySpace
  import opened RequestDecision
  import opened Search

  datatype Strategy =
    | AnySpace
    | AnyInTierWithPreference(tier: Tier, preferredDevice: int)
    | AnyInTier(tier: Tier)
    | AnyInTiers(tiers: seq<Tier>)
    | Specific(tier: Tier, deviceId: int)
    | ToDowngrade
    | ToUpgrade
  {
    predicate Matches(tier: Tier, deviceId: int) {
      match this
      case AnySpace => true
      case AnyInTierWithPreference(t, dev) => tier == t && (dev < 0 || deviceId == dev)
      case AnyInTier(t) => tier == t
      case AnyInTiers(ts) => tier in ts
      case Specific(t, dev) => tier == t && deviceId == dev
      case ToDowngrade => tier == GPU
      case ToUpgrade => tier != GPU
    }
  }

  /** What a space has to be to be granted. */
  predicate Suits(strategy: Strategy, s: MemorySpace) {
    match strategy
    case AnySpace => true
    case AnyInTierWithPreference(t, dev) => s.tier == t && (dev >= 0 ==> s.deviceId == dev)
    case AnyInTier(t) => s.tier == t
    case AnyInTiers(ts) => exists i :: 0 <= i < |ts| && ts[i] == s.tier
    case Specific(t, dev) => s.tier == t && s.deviceId == dev
    case ToDowngrade => s.tier == GPU
    case ToUpgrade => s.tier == HOST || s.tier == DISK
  }

  lemma SuitsIsMatches(strategy: Strategy, s: MemorySpace)
    ensures Suits(strategy, s) <==> strategy.Matches(s.tier, s.deviceId)
  {}

  /** A decided space suits the strategy, and a request matches nothing exactly if no space does. */
  lemma DecidedSuits(strategy: Strategy, spaces: seq<MemorySpace>, matching: seq<bool>, bytes: nat, avail: seq<nat>)
    requires |matching| == |spaces| == |avail|
    requires forall k :: 0 <= k < |spaces| ==> matching[k] == strategy.Matches(spaces[k].tier, spaces[k].deviceId)
    ensures var o := Decide(matching, bytes, Quiet(avail));
            && (o.Space? ==> o.index < |spaces| && Suits(strategy, spaces[o.index]))
            && (o.NoMatch? <==> forall s :: s in spaces ==> !Suits(strategy, s))
  {
    forall k | 0 <= k < |spaces| ensures matching[k] <==> Suits(strategy, spaces[k]) {
      SuitsIsMatches(strategy, spaces[k]);
    }
    QuietRequest(matching, bytes, avail, Decide(matching, bytes, Quiet(avail)));
  }

  /** How the strategies relate: a preference for no device is none, a set of tiers is each of them, one space is
      a tier and a device, and every space can be downgraded or upgraded, and not both. */
  lemma StrategiesRelate(t: Tier, dev: int, ts: seq<Tier>, us: seq<Tier>, tier: Tier, device: int)
    ensures dev < 0 ==>
              (AnyInTierWithPreference(t, dev).Matches(tier, device) <==> AnyInTier(t).Matches(tier, device))
    ensures dev >= 0 ==>
              (AnyInTierWithPreference(t, dev).Matches(tier, device) <==> Specific(t, dev).Matches(tier, device))
    ensures AnyInTiers([t]).Matches(tier, device) <==> AnyInTier(t).Matches(tier, device)
    ensures AnyInTiers(ts + us).Matches(tier, device) <==>
            AnyInTiers(ts).Matches(tier, device) || AnyInTiers(us).Matches(tier, device)
    ensures !AnyInTiers([]).Matches(tier, device)
    ensures Specific(t, dev).Matches(tier, device) <==> AnyInTier(t).Matches(tier, device) && device == dev
    ensures ToDowngrade.Matches(tier, device) <==> AnyInTier(GPU).Matches(tier, device)
    ensures ToDowngrade.Matches(tier, device) <==> !ToUpgrade.Matches(tier, device)
    ensures AnySpace.Matches(tier, device) <==> ToDowngrade.Matches(tier, device) || ToUpgrade.Matches(tier, device)
  {}

  // ---- the manager between whole calls ----

  /** A handle to reserved capacity; its destructor gives the bytes back and tells the manager. */
  class Reservation {
    const space: MemorySpace
    const bytes: nat
    const manager: MemoryReservationManager

    constructor (space: MemorySpace, bytes: nat, manager: MemoryReservationManager)
      ensures this.space == space && this.bytes == bytes && this.manager == manager
    {
      this.space, this.bytes, this.manager := space, bytes, manager;
    }

    method Destroy(spurious: nat)
      requires manager.Valid() && this in manager.outstanding
      modifies manager, space
      ensures manager.Valid() && manager.allSpaces == old(manager.allSpaces)
      ensures manager.outstanding == old(manager.outstanding) - {this}
      ensures space.reservedMemory == old(space.reservedMemory) - bytes
      ensures manager.activeReservations == old(manager.activeReservations) - 1
    {
      Held(manager.outstanding, this);
      LeavesAll(manager.outstanding, this, manager.allSpaces);
      space.ReleaseReservation(bytes, spurious);
      if !manager.shutdownFlag {
        manager.activeReservations := manager.activeReservations - 1;
      }
      manager.outstanding := manager.outstanding - {this};
    }
  }

  ghost function BytesOn(out: set<Reservation>, s: MemorySpace): map<Reservation, int> {
    map r | r in out :: if r.space == s then r.bytes else 0
  }

  /** The bytes outstanding reservations hold on a space. */
  ghost function Reserved(out: set<Reservation>, s: MemorySpace): int { Sum(BytesOn(out, s)) }

  lemma Held(out: set<Reservation>, r: Reservation)
    requires r in out
    ensures r.bytes <= Reserved(out, r.space)
  {
    SumBounds(BytesOn(out, r.space), r);
  }

  lemma Joins(out: set<Reservation>, r: Reservation, s: MemorySpace)
    requires r !in out
    ensures Reserved(out + {r}, s) == Reserved(out, s) + if r.space == s then r.bytes else 0
  {
    Leaves(out + {r}, r, s);
    assert out + {r} - {r} == out;
  }

  lemma Leaves(out: set<Reservation>, r: Reservation, s: MemorySpace)
    requires r in out
    ensures Reserved(out - {r}, s) == Reserved(out, s) - if r.space == s then r.bytes else 0
  {
    SumSplit(BytesOn(out, s), r);
    assert BytesOn(out, s) - {r} == BytesOn(out - {r}, s);
  }

  lemma LeavesAll(out: set<Reservation>, r: Reservation, spaces: seq<MemorySpace>)
    requires r in out
    ensures forall s :: s in spaces ==> Reserved(out - {r}, s) == Reserved(out, s) - if r.space == s then r.bytes else 0
  {
    forall s | s in spaces ensures Reserved(out - {r}, s) == Reserved(out, s) - if r.space == s then r.bytes else 0 {
      Leaves(out, r, s);
    }
  }

  /** What a memory space is made from. */
  datatype SpaceConfig = NoConfig | GpuConfig(deviceId: int) | HostConfig(deviceId: int) | DiskConfig(capacity: nat)

  datatype Description = Description(tier: Tier, deviceId: int, max: nat)

  function Kept(configs: seq<SpaceConfig>, limits: seq<nat>): seq<Description>
    requires |limits| == |configs|
  {
    if configs == [] then []
    else
      var n := |configs| - 1;
      Kept(configs[..n], limits[..n]) +
      match configs[n] {
        case GpuConfig(dev) => [Description(GPU, dev, limits[n])]
        case HostConfig(dev) => [Description(HOST, dev, limits[n])]
        case _ => []
      }
  }

  /** One space for a GPU or a host configuration, none for the others. */
  lemma KeptOfOne(device: int, capacity: nat, limit: nat)
    ensures Kept([GpuConfig(device)], [limit]) == [Description(GPU, device, limit)]
    ensures Kept([HostConfig(device)], [limit]) == [Description(HOST, device, limit)]
    ensures Kept([DiskConfig(capacity)], [limit]) == [] == Kept([NoConfig], [limit])
  {}

  lemma KeptSnoc(a: seq<SpaceConfig>, x: seq<nat>, c: SpaceConfig, limit: nat)
    requires |a| == |x|
    ensures Kept(a + [c], x + [limit]) == Kept(a, x) + Kept([c], [limit])
  {
    assert (a + [c])[..|a|] == a && (x + [limit])[..|a|] == x;
    assert [c][..0] == [] && [limit][..0] == [];
  }

  lemma LastOff<T>(a: seq<T>, b: seq<T>)
    requires b != []
    ensures b == b[..|b| - 1] + [b[|b| - 1]] && a + b == (a + b[..|b| - 1]) + [b[|b| - 1]]
  {}

  lemma Regroup<T>(a: seq<T>, b: seq<T>, c: seq<T>)
    ensures a + b + c == a + (b + c)
  {}

  /** The spaces are those of the first configurations and then those of the others. */
  lemma {:induction false} KeptInOrder(a: seq<SpaceConfig>, x: seq<nat>, b: seq<SpaceConfig>, y: seq<nat>)
    requires |a| == |x| && |b| == |y|
    ensures Kept(a + b, x + y) == Kept(a, x) + Kept(b, y)
    decreases |b|
  {
    if b == [] {
      assert a + b == a && x + y == x;
    } else {
      var b', y', c, limit := b[..|b| - 1], y[..|b| - 1], b[|b| - 1], y[|b| - 1];
      LastOff(a, b);
      LastOff(x, y);
      KeptInOrder(a, x, b', y');
      KeptSnoc(a + b', x + y', c, limit);
      KeptSnoc(b', y', c, limit);
      Regroup(Kept(a, x), Kept(b', y'), Kept([c], [limit]));
    }
  }

  ghost predicate Described(spaces: seq<MemorySpace>, d: seq<Description>) {
    |spaces| == |d| &&
    forall k :: 0 <= k < |d| ==>
      spaces[k].tier == d[k].tier && spaces[k].deviceId == d[k].deviceId && spaces[k].maxMemory == d[k].max
  }

  /** One new space for every GPU and host configuration, in order; the others are passed over. */
  method BuildSpaces(configs: seq<SpaceConfig>, limits: seq<nat>) returns (spaces: seq<MemorySpace>)
    requires |limits| == |configs|
    ensures forall i, j :: 0 <= i < j < |spaces| ==> spaces[i] != spaces[j]
    ensures forall s :: s in spaces ==> fresh(s) && s.reservedMemory == 0
    ensures Described(spaces, Kept(configs, limits))
  {
    spaces := [];
    for i := 0 to |configs|
      invariant forall k, j :: 0 <= k < j < |spaces| ==> spaces[k] != spaces[j]
      invariant forall s :: s in spaces ==> fresh(s) && s.reservedMemory == 0
      invariant Described(spaces, Kept(configs[..i], limits[..i]))
    {
      assert configs[..i + 1][..i] == configs[..i] && limits[..i + 1][..i] == limits[..i];
      if configs[i].GpuConfig? || configs[i].HostConfig? {
        var s := new MemorySpace(if configs[i].GpuConfig? then GPU else HOST, configs[i].deviceId, limits[i]);
        spaces := spaces + [s];
      }
    }
    assert configs[..|configs|] == configs && limits[..|configs|] == limits;
  }

  class MemoryReservationManager {
    var allSpaces: seq<MemorySpace>
    var activeReservations: nat
    var shutdownFlag: bool
    ghost var outstanding: set<Reservation>

    /** The counter is the number of outstanding reservations, and every space holds exactly their
        bytes and no more than its maximum. */
    ghost predicate Valid()
      reads this, allSpaces
    {
      && (forall i, j :: 0 <= i < j < |allSpaces| ==> allSpaces[i] != allSpaces[j])
      && (forall r :: r in outstanding ==> r.manager == this && r.space in allSpaces)
      && !shutdownFlag
      && activeReservations == |outstanding|
      && (forall s :: s in allSpaces ==> s.reservedMemory == Reserved(outstanding, s) <= s.maxMemory)
    }

    /** `limits` are the maxima the subclass sets right after. */
    constructor (configs: seq<SpaceConfig>, limits: seq<nat>)
      requires |limits| == |configs|
      ensures Valid() && outstanding == {} && activeReservations == 0
      ensures fresh(set s | s in allSpaces)
      ensures Described(allSpaces, Kept(configs, limits))
    {
      allSpaces, activeReservations, shutdownFlag, outstanding := [], 0, false, {};
      new;
      allSpaces := BuildSpaces(configs, limits);
      forall s | s in allSpaces ensures Reserved(outstanding, s) == 0 { SumZero(BytesOn(outstanding, s)); }
    }

    /** Which spaces match, and what each has left. */
    ghost function Matching(strategy: Strategy): (flags: seq<bool>)
      reads this`allSpaces
      ensures |flags| == |allSpaces|
      ensures forall k :: 0 <= k < |flags| ==> flags[k] == strategy.Matches(allSpaces[k].tier, allSpaces[k].deviceId)
    {
      var spaces := allSpaces;
      seq(|spaces|, k requires 0 <= k < |spaces| => strategy.Matches(spaces[k].tier, spaces[k].deviceId))
    }

    ghost function Room(): (avail: seq<nat>)
      reads this`allSpaces, allSpaces
      ensures |avail| == |allSpaces|
      ensures forall k :: 0 <= k < |avail| ==> avail[k] == allSpaces[k].AvailableMemory()
    {
      var spaces := allSpaces;
      seq(|spaces|, k requires 0 <= k < |spaces| reads spaces => spaces[k].AvailableMemory())
    }

    /** `s` may already be charged for a grant that is not recorded yet. */
    ghost predicate Charged(s: MemorySpace, bytes: nat)
      reads this, allSpaces
    {
      && (forall i, j :: 0 <= i < j < |allSpaces| ==> allSpaces[i] != allSpaces[j])
      && (forall r :: r in outstanding ==> r.manager == this && r.space in allSpaces)
      && !shutdownFlag
      && activeReservations == |outstanding|
      && s in allSpaces
      && (forall q :: q in allSpaces ==>
            q.reservedMemory == Reserved(outstanding, q) + (if q == s then bytes else 0) <= q.maxMemory)
    }

    lemma IssueSettles(s: MemorySpace, bytes: nat, r: Reservation)
      requires Charged(s, bytes) && r !in outstanding && r.space == s && r.bytes == bytes
      ensures forall q :: q in allSpaces ==> q.reservedMemory == Reserved(outstanding + {r}, q)
    {
      forall q | q in allSpaces ensures q.reservedMemory == Reserved(outstanding + {r}, q) { Joins(outstanding, r, q); }
    }

    method Issue(s: MemorySpace, bytes: nat) returns (r: Reservation)
      requires Charged(s, bytes)
      modifies this`activeReservations, this`outstanding
      ensures Valid() && fresh(r) && r.space == s && r.bytes == bytes
      ensures outstanding == old(outstanding) + {r}
    {
      r := new Reservation(s, bytes, this);
      IssueSettles(s, bytes, r);
      activeReservations := activeReservations + 1;
      outstanding := outstanding + {r};
    }

    /** What an outcome means for the state: the space decided on is charged and a new handle for it
        is outstanding, or nothing has moved. */
    twostate predicate Settled(o: Outcome, bytes: nat, new r: Reservation?)
      reads this, allSpaces, r
    {
      && Valid()
      && allSpaces == old(allSpaces)
      && (forall i :: 0 <= i < |allSpaces| ==>
            allSpaces[i].reservedMemory == old(allSpaces[i].reservedMemory) + if o == Space(i) then bytes else 0)
      && (r != null <==> o.Space?)
      && (r == null ==> outstanding == old(outstanding))
      && (r != null ==>
            && o.index < |allSpaces| && r.space == allSpaces[o.index] && r.bytes == bytes
            && outstanding == old(outstanding) + {r})
    }

    /** The first pass: check for room, then charge the first space that showed some. */
    method FirstPass(strategy: Strategy, bytes: nat, spurious: nat) returns (r: Reservation?, ghost k: nat)
      requires Valid()
      modifies this`activeReservations, this`outstanding, allSpaces
      ensures k == old(First(Hinted(Matching(strategy), bytes, Quiet(Room()))))
      ensures r != null ==> fresh(r)
      ensures Settled(if k < |allSpaces| then Space(k) else NoRoom, bytes, r)
    {
      ghost var flags := Hinted(Matching(strategy), bytes, Quiet(Room()));
      k := First(flags);
      var i := 0;
      while i < |allSpaces|
        invariant i <= |allSpaces|
        invariant k == First(flags, i)
      {
        var s := allSpaces[i];
        if strategy.Matches(s.tier, s.deviceId) && s.AvailableMemory() >= bytes {
          var granted := s.MakeReservation(bytes, spurious);
          if granted.Granted? {
            r := Issue(s, bytes);
            return;
          }
          break;
        }
        i := i + 1;
      }
      r := null;
    }

    /** Whatever one space says. */
    method AskSpace(i: nat, bytes: nat, spurious: nat) returns (r: Reservation?)
      requires Valid() && i < |allSpaces|
      modifies this`activeReservations, this`outstanding, allSpaces
      ensures r != null ==> fresh(r)
      ensures Settled(if bytes <= old(allSpaces[i].AvailableMemory()) then Space(i) else NoRoom, bytes, r)
    {
      var s := allSpaces[i];
      assert forall j :: 0 <= j < |allSpaces| ==> (allSpaces[j] == s <==> j == i);
      var granted := s.MakeReservationOrNull(bytes, spurious);
      if granted.Granted? {
        r := Issue(s, bytes);
      } else {
        assert forall q :: q in allSpaces ==> q.reservedMemory == old(q.reservedMemory);
        r := null;
      }
    }

    /** The second pass: whatever the first matching space says. */
    method SecondPass(strategy: Strategy, bytes: nat, spurious: nat)
      returns (r: Reservation?, threw: bool, ghost o: Outcome)
      requires Valid()
      modifies this`activeReservations, this`outstanding, allSpaces
      ensures o == old(Fallback(Matching(strategy), bytes, Quiet(Room())))
      ensures threw <==> o.NoMatch?
      ensures r != null ==> fresh(r)
      ensures Settled(o, bytes, r)
    {
      ghost var matching := Matching(strategy);
      o := Fallback(matching, bytes, Quiet(Room()));
      var i := 0;
      while i < |allSpaces|
        invariant i <= |allSpaces|
        invariant First(matching) == First(matching, i)
      {
        var s := allSpaces[i];
        if strategy.Matches(s.tier, s.deviceId) {
          r := AskSpace(i, bytes, spurious);
          threw := false;
          return;
        }
        i := i + 1;
      }
      r, threw := null, true;
    }

    /** The two passes: their outcome is what is decided at the room there is now. */
    method TwoPasses(strategy: Strategy, bytes: nat, spurious: nat)
      returns (r: Reservation?, threw: bool, ghost o: Outcome)
      requires Valid()
      modifies this`activeReservations, this`outstanding, allSpaces
      ensures o == old(Decide(Matching(strategy), bytes, Quiet(Room())))
      ensures threw <==> o.NoMatch?
      ensures r != null ==> fresh(r)
      ensures Settled(o, bytes, r)
    {
      ghost var k;
      r, k := FirstPass(strategy, bytes, spurious);
      threw, o := false, Space(k);
      if r == null {
        r, threw, o := SecondPass(strategy, bytes, spurious);
      }
    }

    /** The request itself: it throws exactly if no space suits the strategy, and a space it is granted does. */
    method RequestReservation(strategy: Strategy, bytes: nat, spurious: nat)
      returns (r: Reservation?, threw: bool, ghost o: Outcome)
      requires Valid()
      modifies this`activeReservations, this`outstanding, allSpaces
      ensures o == old(Decide(Matching(strategy), bytes, Quiet(Room())))
      ensures threw <==> forall s :: s in allSpaces ==> !Suits(strategy, s)
      ensures r != null ==> fresh(r) && Suits(strategy, r.space)
      ensures Settled(o, bytes, r)
    {
      DecidedSuits(strategy, allSpaces, Matching(strategy), bytes, Room());
      r, threw, o := TwoPasses(strategy, bytes, spurious);
    }

    /** Afterwards every request throws: there is no space left to match. */
    method Shutdown()
      modifies this
      ensures shutdownFlag && allSpaces == [] && activeReservations == 0
      ensures forall strategy, bytes: nat :: Decide(Matching(strategy), bytes, Quiet(Room())) == NoMatch
    {
      shutdownFlag := true;
      allSpaces := [];
      activeReservations := 0;
    }
  }
}
