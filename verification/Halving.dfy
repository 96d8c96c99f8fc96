/** The halving schedule, kept twice in the source: as stored state advanced by ProcessHalving and
    as the closed form height / 210000. */
module Halving {
  import opened Wrappers

  const INTERVAL: nat := 210_000

  datatype HalvingInfo = HalvingInfo(last: nat, next: nat, interval: nat)

  /** GetHalvingInfo: the stored info, or the genesis default. */
  function InfoOr(stored: Option<HalvingInfo>): HalvingInfo {
    match stored
    case Some(info) => info
    case None => HalvingInfo(0, INTERVAL, INTERVAL)
  }

  /** GetHalvingCount. */
  function HalvingCount(height: nat): nat {
    height / INTERVAL
  }

  /** One ProcessHalving call: at most one interval is moved over. */
  function Advance(info: HalvingInfo, height: nat): HalvingInfo {
    if height >= info.next then info.(last := info.next, next := info.next + info.interval) else info
  }

  /** The stored info says what the closed form says. */
  ghost predicate Agrees(info: HalvingInfo, height: nat) {
    info == HalvingInfo(INTERVAL * HalvingCount(height), INTERVAL * HalvingCount(height) + INTERVAL, INTERVAL)
  }

  class HalvingKeeper {
    var stored: Option<HalvingInfo>

    /** InitGenesis stores the default. */
    constructor ()
      ensures Agrees(InfoOr(stored), 0)
    {
      stored := Some(HalvingInfo(0, INTERVAL, INTERVAL));
    }

    /** Below the next halving height the unchanged info is stored again whenever a positive
        average block time is known. */
    method ProcessHalving(height: nat, averageKnown: bool)
      modifies this
      ensures InfoOr(stored) == Advance(InfoOr(old(stored)), height)
    {
      var info := InfoOr(stored);
      if height >= info.next {
        info := info.(last := info.next, next := info.next + info.interval);
        stored := Some(info);
      } else if averageKnown {
        stored := Some(info);
      }
    }
  }

  ghost function Process(info: HalvingInfo, heights: seq<nat>): HalvingInfo {
    if heights == [] then info
    else Advance(Process(info, heights[..|heights| - 1]), heights[|heights| - 1])
  }

  /** If the state agreed at an earlier height, one call makes it agree at the new height exactly
      when the new height lies before the end of the following interval. */
  lemma AgreesNextExactly(info: HalvingInfo, height: nat, next: nat)
    requires Agrees(info, height) && height <= next
    ensures Agrees(Advance(info, next), next) <==> next < info.next + INTERVAL
    ensures Agrees(Advance(info, next), next) ==>
      Advance(info, next).last <= next < Advance(info, next).next
  {
    assert height / INTERVAL <= next / INTERVAL;
  }

  /** Further calls at the same height change nothing: EndBlocker repeats BeginBlocker's call. */
  lemma SameHeightIdempotent(info: HalvingInfo, height: nat)
    requires Agrees(info, height)
    ensures Advance(info, height) == info
  {
  }

  /** The height of the last call, genesis being height zero. */
  function Latest(heights: seq<nat>): nat {
    if heights == [] then 0 else heights[|heights| - 1]
  }

  function Earlier(heights: seq<nat>): seq<nat>
    requires heights != []
  {
    heights[..|heights| - 1]
  }

  ghost predicate Rising(heights: seq<nat>) {
    heights != [] ==> Rising(Earlier(heights)) && Latest(Earlier(heights)) <= Latest(heights)
  }

  /** Every call comes before the end of the interval after the previous call's. */
  ghost predicate NoIntervalSkipped(heights: seq<nat>) {
    heights != [] ==>
      NoIntervalSkipped(Earlier(heights)) && HalvingCount(Latest(heights)) <= HalvingCount(Latest(Earlier(heights))) + 1
  }

  const GENESIS: HalvingInfo := HalvingInfo(0, INTERVAL, INTERVAL)

  /** After every single call of the run the stored state agreed with the closed form. */
  ghost predicate AgreesThroughout(heights: seq<nat>) {
    heights != [] ==> AgreesThroughout(Earlier(heights)) && Agrees(Process(GENESIS, heights), Latest(heights))
  }

  /** Stored state and closed form agree after every call of a run from genesis, at rising heights,
      exactly when no call skips a whole interval. */
  lemma {:induction false} AgreesThroughoutExactly(heights: seq<nat>)
    requires Rising(heights)
    ensures AgreesThroughout(heights) <==> NoIntervalSkipped(heights)
  {
    if heights != [] {
      AgreesThroughoutExactly(Earlier(heights));
      var info := Process(GENESIS, Earlier(heights));
      if AgreesThroughout(Earlier(heights)) {
        assert Agrees(info, Latest(Earlier(heights)));
        AgreesNextExactly(info, Latest(Earlier(heights)), Latest(heights));
      }
    }
  }

  function Consecutive(n: nat): (hs: seq<nat>) {
    if n == 0 then [] else Consecutive(n - 1) + [n]
  }

  lemma {:induction false} ConsecutiveSkipsNothing(n: nat)
    ensures Rising(Consecutive(n)) && NoIntervalSkipped(Consecutive(n)) && Latest(Consecutive(n)) == n
  {
    if n > 0 {
      ConsecutiveSkipsNothing(n - 1);
      assert Earlier(Consecutive(n)) == Consecutive(n - 1);
      assert n / INTERVAL <= (n - 1) / INTERVAL + 1;
    }
  }

  /** On consecutive heights from genesis the stored info is 210000 * (h / 210000) and the next
      multiple, after every block. */
  lemma ConsecutiveHeightsAgree(h: nat)
    requires h > 0
    ensures Agrees(Process(GENESIS, Consecutive(h)), h)
  {
    ConsecutiveSkipsNothing(h);
    AgreesThroughoutExactly(Consecutive(h));
  }

  /** The same in numbers: the last halving is the multiple of 210000 at or below the height, the next one
      210000 blocks later. */
  lemma ConsecutiveHeightsInNumbers(h: nat)
    requires h > 0
    ensures var info := Process(GENESIS, Consecutive(h));
      info.last == 210_000 * (h / 210_000) && info.next == info.last + 210_000 && info.next > h
  {
    ConsecutiveHeightsAgree(h);
  }
}
