/** What the two passes of a reservation request decide, from what the matching spaces show them. */
module RequestDecision {
  import opened Search

  datatype Outcome = Space(index: nat) | NoRoom | NoMatch

  /** How much room one space shows: when the first pass looks, at the first pass's swap, and at the
      second pass's swap. Without races the three agree. */
  datatype Seen = Seen(hint: nat, atSwap: nat, later: nat)

  function Quiet(avail: seq<nat>): (seen: seq<Seen>)
    ensures |seen| == |avail|
    ensures forall k :: 0 <= k < |avail| ==> seen[k] == Seen(avail[k], avail[k], avail[k])
  {
    seq(|avail|, k requires 0 <= k < |avail| => Seen(avail[k], avail[k], avail[k]))
  }

  function Hinted(matching: seq<bool>, bytes: nat, seen: seq<Seen>): (flags: seq<bool>)
    requires |seen| == |matching|
    ensures |flags| == |matching|
    ensures forall k :: 0 <= k < |flags| ==> flags[k] == (matching[k] && bytes <= seen[k].hint)
  {
    seq(|matching|, k requires 0 <= k < |matching| => matching[k] && bytes <= seen[k].hint)
  }

  /** The second pass ends on the first match of all, whatever the matches behind it have to offer. */
  function Fallback(matching: seq<bool>, bytes: nat, seen: seq<Seen>): Outcome
    requires |seen| == |matching|
  {
    var m := First(matching);
    if m == |matching| then NoMatch else if bytes <= seen[m].later then Space(m) else NoRoom
  }

  /** A request ends on the first hinted match if its swap still finds room, else on the fallback. */
  function Decide(matching: seq<bool>, bytes: nat, seen: seq<Seen>): Outcome
    requires |seen| == |matching|
  {
    var k := First(Hinted(matching, bytes, seen));
    if k < |matching| && bytes <= seen[k].atSwap then Space(k) else Fallback(matching, bytes, seen)
  }

  /** The two passes of a request, reading what other threads leave them to see. */
  method RequestUnderRaces(matching: seq<bool>, bytes: nat, seen: seq<Seen>) returns (o: Outcome)
    requires |seen| == |matching|
    ensures o == Decide(matching, bytes, seen)
  {
    var i := 0;
    ghost var flags := Hinted(matching, bytes, seen);
    while i < |matching|
      invariant i <= |matching|
      invariant First(flags) == First(flags, i)
    {
      if matching[i] && seen[i].hint >= bytes {
        if bytes <= seen[i].atSwap { return Space(i); }
        break;
      }
      i := i + 1;
    }
    i := 0;
    while i < |matching|
      invariant i <= |matching|
      invariant First(matching) == First(matching, i)
    {
      if matching[i] { return if bytes <= seen[i].later then Space(i) else NoRoom; }
      i := i + 1;
    }
    return NoMatch;
  }

  /** Without races a request gets the first matching space with room, finds no room exactly when
      some space matches and none of those has any, and throws exactly when none matches. */
  lemma QuietRequest(matching: seq<bool>, bytes: nat, avail: seq<nat>, o: Outcome)
    requires |avail| == |matching|
    ensures o == Decide(matching, bytes, Quiet(avail)) <==>
            match o {
              case Space(k) =>
                && k < |matching| && matching[k] && bytes <= avail[k]
                && forall j :: 0 <= j < k ==> !(matching[j] && bytes <= avail[j])
              case NoRoom =>
                && (exists j :: 0 <= j < |matching| && matching[j])
                && forall j :: 0 <= j < |matching| ==> !(matching[j] && bytes <= avail[j])
              case NoMatch => forall j :: 0 <= j < |matching| ==> !matching[j]
            }
  {}
}
