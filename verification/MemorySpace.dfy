/** A memory space as one thread sees it: three ways to reserve, each a compare-and-swap loop on one
    counter, and the guarded release. */
module MemorySpace {
  import opened Sums

  datatype Tier = GPU | HOST | DISK

  datatype Reservation = Granted(bytes: nat) | Null | Threw

  class MemorySpace {
    const tier: Tier
    const deviceId: int
    const maxMemory: nat
    var reservedMemory: nat

    constructor (tier: Tier, deviceId: int, maxMemory: nat)
      ensures this.tier == tier && this.deviceId == deviceId && this.maxMemory == maxMemory && reservedMemory == 0
    {
      this.tier, this.deviceId, this.maxMemory := tier, deviceId, maxMemory;
      reservedMemory := 0;
    }

    function AvailableMemory(): (avail: nat)
      reads this`reservedMemory
      ensures reservedMemory <= maxMemory ==> avail == maxMemory - reservedMemory
      ensures reservedMemory > maxMemory ==> avail == 0
    {
      if maxMemory > reservedMemory then maxMemory - reservedMemory else 0
    }

    /** The loop all three calls share. `upto` takes what fits and refuses only nothing; the others
        take all or refuse. `spurious` is how often the weak swap fails for no reason. */
    method Charge(bytes: nat, upto: bool, spurious: nat) returns (granted: nat, ok: bool)
      modifies this`reservedMemory
      ensures ok <==> if upto then bytes > 0 && old(AvailableMemory()) > 0 else bytes <= old(AvailableMemory())
      ensures ok ==> granted == (if upto then Min(bytes, old(AvailableMemory())) else bytes)
      ensures reservedMemory == old(reservedMemory) + if ok then granted else 0
    {
      var cur := reservedMemory;
      var retries := spurious;
      while true
        invariant cur == reservedMemory == old(reservedMemory)
        decreases retries
      {
        var avail := if maxMemory > cur then maxMemory - cur else 0;
        granted := if upto then Min(bytes, avail) else bytes;
        if (upto && granted == 0) || (!upto && bytes > avail) { return granted, false; }
        if retries == 0 {
          reservedMemory := cur + granted;
          return granted, true;
        }
        cur := reservedMemory;
        retries := retries - 1;
      }
    }

    method MakeReservation(bytes: nat, spurious: nat) returns (r: Reservation)
      modifies this`reservedMemory
      ensures r == if bytes <= old(AvailableMemory()) then Granted(bytes) else Threw
      ensures reservedMemory == old(reservedMemory) + if r.Granted? then bytes else 0
    {
      var granted, ok := Charge(bytes, false, spurious);
      return if ok then Granted(granted) else Threw;
    }

    method MakeReservationOrNull(bytes: nat, spurious: nat) returns (r: Reservation)
      modifies this`reservedMemory
      ensures r == if bytes <= old(AvailableMemory()) then Granted(bytes) else Null
      ensures reservedMemory == old(reservedMemory) + if r.Granted? then bytes else 0
    {
      var granted, ok := Charge(bytes, false, spurious);
      return if ok then Granted(granted) else Null;
    }

    method MakeReservationUpto(bytes: nat, spurious: nat) returns (r: Reservation)
      modifies this`reservedMemory
      ensures r == if bytes > 0 && old(AvailableMemory()) > 0 then Granted(Min(bytes, old(AvailableMemory()))) else Null
      ensures reservedMemory == old(reservedMemory) + if r.Granted? then r.bytes else 0
    {
      var granted, ok := Charge(bytes, true, spurious);
      return if ok then Granted(granted) else Null;
    }

    /** Credits only if the counter holds that much. */
    method ReleaseReservation(bytes: nat, spurious: nat)
      modifies this`reservedMemory
      ensures reservedMemory
           == if old(reservedMemory) >= bytes then old(reservedMemory) - bytes else old(reservedMemory)
    {
      var cur := reservedMemory;
      var retries := spurious;
      while cur >= bytes
        invariant cur == reservedMemory == old(reservedMemory)
        decreases retries
      {
        if retries == 0 {
          reservedMemory := cur - bytes;
          return;
        }
        cur := reservedMemory;
        retries := retries - 1;
      }
    }
  }
}
