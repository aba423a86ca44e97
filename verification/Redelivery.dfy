/**
 What the decoder does with slices repeated at will, also after their message was completed, and hence
 exactly which sequences of frames it turns into one delivery per message
 (src/darwincore/network/protocol.cpp: a slice of a completed message opens a new assembly).
 */
module Redelivery {
  import opened Bytes
  import opened Frames
  import opened Decoder
  import opened Reassembly

  /** The slices of a message since it was last delivered. */
  ghost function Open(mail: Mail, sched: seq<Item>, id: nat): set<nat>
    decreases |sched|
  {
    if sched == [] then {} else Opens(mail, Open(mail, sched[..|sched| - 1], id), id, sched[|sched| - 1])
  }

  ghost function Opens(mail: Mail, open: set<nat>, id: nat, item: Item): set<nat> {
    if Finishes(mail, open, id, item) then {} else if Concerns(mail, id, item) then open + {item.i} else open
  }

  ghost predicate Concerns(mail: Mail, id: nat, item: Item) {
    item.Slice? && item.id == id && id in mail
  }

  /** Does the item bring the last missing slice? */
  ghost predicate Finishes(mail: Mail, open: set<nat>, id: nat, item: Item) {
    Concerns(mail, id, item) && |open + {item.i}| == Count(mail[id])
  }

  /** How often a message is delivered. */
  ghost function Times(mail: Mail, sched: seq<Item>, id: nat): nat
    decreases |sched|
  {
    if sched == [] then 0 else
      var before := sched[..|sched| - 1];
      Times(mail, before, id) + if Finishes(mail, Open(mail, before, id), id, sched[|sched| - 1]) then 1 else 0
  }

  ghost function Deliveries(ms: seq<Message>, id: nat): nat
    decreases |ms|
  {
    if ms == [] then 0 else Deliveries(ms[..|ms| - 1], id) + if ms[|ms| - 1].id == id then 1 else 0
  }

  // ---------------------------------------------------------------- the decoder follows

  ghost predicate Follows(mail: Mail, sched: seq<Item>, core: Core) {
    && (forall id :: TrackOne(mail, Open(mail, sched, id), core, id) && Deliveries(core.completed, id) == Times(mail, sched, id))
    && core.events == StreamEvents(sched)
  }

  /** Some, but not all, of n slices. */
  ghost predicate NotAll(open: set<nat>, n: nat) {
    |open| < n && forall i :: i in open ==> i < n
  }

  lemma OpensNotAll(mail: Mail, open: set<nat>, id: nat, item: Item)
    requires id in mail && Count(mail[id]) > 0 && NotAll(open, Count(mail[id]))
    requires Concerns(mail, id, item) ==> item.i < Count(mail[id])
    ensures NotAll(Opens(mail, open, id, item), Count(mail[id]))
  {
    if Concerns(mail, id, item) { Cardinality(Count(mail[id]), open + {item.i}); }
  }

  lemma {:induction false} OpenBounded(mail: Mail, sched: seq<Item>, id: nat)
    requires Items(mail, sched) && id in mail && Sendable(id, mail[id])
    ensures NotAll(Open(mail, sched, id), Count(mail[id]))
    decreases |sched|
  {
    assert Count(mail[id]) > 0 by { CountFacts(id, mail[id], 0); }
    if sched != [] {
      var before, item := sched[..|sched| - 1], sched[|sched| - 1];
      OpenBounded(mail, before, id);
      assert ItemOk(mail, item);
      OpensNotAll(mail, Open(mail, before, id), id, item);
    }
  }

  lemma Grown(mail: Mail, sched: seq<Item>, item: Item, id: nat)
    ensures Open(mail, sched + [item], id) == Opens(mail, Open(mail, sched, id), id, item)
    ensures Times(mail, sched + [item], id) == Times(mail, sched, id) + if Finishes(mail, Open(mail, sched, id), id, item) then 1 else 0
  {
    assert (sched + [item])[..|sched|] == sched;
  }

  lemma DeliveredOne(ms: seq<Message>, m: Message, id: nat)
    ensures Deliveries(ms + [m], id) == Deliveries(ms, id) + if m.id == id then 1 else 0
  {
    assert (ms + [m])[..|ms|] == ms;
  }

  /** One message's books after a slice. */
  lemma SliceFollowed(mail: Mail, open: set<nat>, core: Core, id: nat, i: nat)
    requires id in mail && Sendable(id, mail[id]) && i < Count(mail[id]) && TrackOne(mail, open, core, id)
    requires |open| < Count(mail[id]) && forall k :: k in open ==> k < Count(mail[id])
    ensures Offset(mail[id].crc, i) <= |mail[id].data|
    ensures var h := TakeSlice(core, id, Count(mail[id]), i, SliceData(mail[id].data, mail[id].crc, i));
            && h.Handled? && TrackOne(mail, Opens(mail, open, id, Slice(id, i)), h.core, id)
            && Delivers(core, h.core, id, mail[id].data, Finishes(mail, open, id, Slice(id, i)))
  {
    SliceTracked(mail, open, core, id, i);
    var h := TakeSlice(core, id, Count(mail[id]), i, SliceData(mail[id].data, mail[id].crc, i));
    if Finishes(mail, open, id, Slice(id, i)) { DeliveredIsForgotten(mail, open + {i}, h.core, id); }
  }

  /** The books of the other messages, and of all deliveries. */
  lemma OthersFollow(mail: Mail, open: set<nat>, times: nat, core: Core, core': Core, item: Item, all: bool, id: nat)
    requires item.Slice? && item.id in mail && Delivers(core, core', item.id, mail[item.id].data, all)
    requires Deliveries(core.completed, id) == times && (id == item.id ==> all == Finishes(mail, open, id, item))
    requires id != item.id ==> TrackOne(mail, open, core, id)
    ensures Deliveries(core'.completed, id) == times + if Finishes(mail, open, id, item) then 1 else 0
    ensures id != item.id ==> TrackOne(mail, Opens(mail, open, id, item), core', id)
  {
    DeliveredOne(core.completed, Message(item.id, mail[item.id].data), id);
  }

  lemma SliceEffect(mail: Mail, sched: seq<Item>, core: Core, id: nat, i: nat) returns (core': Core)
    requires Items(mail, sched) && ItemOk(mail, Slice(id, i)) && TrackOne(mail, Open(mail, sched, id), core, id)
    ensures Offset(mail[id].crc, i) <= |mail[id].data|
    ensures TakeSlice(core, id, Count(mail[id]), i, SliceData(mail[id].data, mail[id].crc, i)) == Handled(core')
    ensures TrackOne(mail, Opens(mail, Open(mail, sched, id), id, Slice(id, i)), core', id)
    ensures Delivers(core, core', id, mail[id].data, Finishes(mail, Open(mail, sched, id), id, Slice(id, i)))
  {
    OpenBounded(mail, sched, id);
    SliceFollowed(mail, Open(mail, sched, id), core, id, i);
    core' := TakeSlice(core, id, Count(mail[id]), i, SliceData(mail[id].data, mail[id].crc, i)).core;
  }

  lemma SliceStepFollows(sum: Sum, mail: Mail, sched: seq<Item>, core: Core, item: Item, f: Frame) returns (core': Core)
    requires Items(mail, sched) && Follows(mail, sched, core) && item.Slice? && IsItemFrame(sum, mail, item, f)
    ensures Handles(FrameHandler(sum), core, f, Handled(core')) && Follows(mail, sched + [item], core')
  {
    var id := item.id;
    var core1 := core.(framesReceived := core.framesReceived + 1);
    assert TrackOne(mail, Open(mail, sched, id), core, id);
    core' := SliceEffect(mail, sched, core1, id, item.i);
    HandleSliceItem(sum, core, id, mail[id], item.i, f, Handled(core'));
    SliceKeepsBooks(mail, sched, core, core1, item, core');
  }

  lemma SliceKeepsBooks(mail: Mail, sched: seq<Item>, core: Core, core1: Core, item: Item, core': Core)
    requires Follows(mail, sched, core) && item.Slice? && item.id in mail && core1 == core.(framesReceived := core1.framesReceived)
    requires TrackOne(mail, Opens(mail, Open(mail, sched, item.id), item.id, item), core', item.id)
    requires Delivers(core1, core', item.id, mail[item.id].data, Finishes(mail, Open(mail, sched, item.id), item.id, item))
    ensures Follows(mail, sched + [item], core')
  {
    var all := Finishes(mail, Open(mail, sched, item.id), item.id, item);
    forall id
      ensures TrackOne(mail, Open(mail, sched + [item], id), core', id)
      ensures Deliveries(core'.completed, id) == Times(mail, sched + [item], id)
    {
      Grown(mail, sched, item, id);
      assert TrackOne(mail, Open(mail, sched, id), core, id);
      OthersFollow(mail, Open(mail, sched, id), Times(mail, sched, id), core1, core', item, all, id);
    }
    assert (sched + [item])[..|sched|] == sched;
  }

  lemma StreamStepFollows(sum: Sum, mail: Mail, sched: seq<Item>, core: Core, item: Item, f: Frame) returns (core': Core)
    requires Follows(mail, sched, core) && !item.Slice? && IsItemFrame(sum, mail, item, f)
    ensures Handles(FrameHandler(sum), core, f, Handled(core')) && Follows(mail, sched + [item], core')
  {
    core' := StreamEffect(core, ItemEvent(item)).core;
    HandleStreamItem(sum, mail, core, item, f, Handled(core'));
    forall other
      ensures TrackOne(mail, Open(mail, sched + [item], other), core', other)
      ensures Deliveries(core'.completed, other) == Times(mail, sched + [item], other)
    {
      Grown(mail, sched, item, other);
      assert TrackOne(mail, Open(mail, sched, other), core, other);
    }
    assert (sched + [item])[..|sched|] == sched;
  }

  lemma FollowsNothing(mail: Mail)
    ensures Follows(mail, [], EMPTY)
  {
  }

  /** The decoder's states along any sequence of items. */
  lemma {:induction false} TraceOfItems(sum: Sum, mail: Mail, sched: seq<Item>, frames: seq<Frame>) returns (cores: seq<Core>)
    requires Encodes(sum, mail, sched, frames)
    ensures Trace(FrameHandler(sum), frames, cores) && cores[0] == EMPTY
    ensures Follows(mail, sched, cores[|sched|])
    decreases |sched|
  {
    if sched == [] {
      cores := [EMPTY];
      FollowsNothing(mail);
    } else {
      var n := |sched| - 1;
      var item, f := sched[n], frames[n];
      assert IsItemFrame(sum, mail, item, f);
      EncodesFront(sum, mail, sched, frames, n);
      ItemsEncoded(sum, mail, sched[..n], frames[..n]);
      cores := TraceOfItems(sum, mail, sched[..n], frames[..n]);
      var core';
      if item.Slice? { core' := SliceStepFollows(sum, mail, sched[..n], cores[n], item, f); }
      else { core' := StreamStepFollows(sum, mail, sched[..n], cores[n], item, f); }
      TraceGrows(FrameHandler(sum), frames[..n], cores, f, core');
      cores := cores + [core'];
    }
  }

  lemma ItemsEncoded(sum: Sum, mail: Mail, sched: seq<Item>, frames: seq<Frame>)
    requires Encodes(sum, mail, sched, frames)
    ensures Items(mail, sched)
  {
    forall k | 0 <= k < |sched| ensures ItemOk(mail, sched[k]) { assert IsItemFrame(sum, mail, sched[k], frames[k]); }
  }

  // ---------------------------------------------------------------- too many slices are never made good

  /** Until its first delivery a message's open slices are all that were sent; from then on it is complete. */
  ghost predicate Booked(open: set<nat>, seen: set<nat>, times: nat, n: nat) {
    && (times == 0 ==> open == seen && |seen| != n)
    && (times > 0 ==> |seen| == n)
    && forall i :: i in seen ==> i < n
  }

  lemma BookedOn(mail: Mail, open: set<nat>, seen: set<nat>, times: nat, id: nat, i: nat)
    requires id in mail && i < Count(mail[id]) && Booked(open, seen, times, Count(mail[id]))
    ensures Booked(Opens(mail, open, id, Slice(id, i)), seen + {i}, times + (if Finishes(mail, open, id, Slice(id, i)) then 1 else 0), Count(mail[id]))
  {
    Cardinality(Count(mail[id]), seen);
    if times > 0 { assert seen + {i} == seen; }
  }

  lemma {:induction false} FirstDelivery(mail: Mail, sched: seq<Item>, id: nat)
    requires Items(mail, sched) && id in mail && Sendable(id, mail[id])
    ensures Booked(Open(mail, sched, id), Seen(sched, id), Times(mail, sched, id), Count(mail[id]))
    decreases |sched|
  {
    if sched == [] {
      CountFacts(id, mail[id], 0);
    } else {
      var before, item := sched[..|sched| - 1], sched[|sched| - 1];
      FirstDelivery(mail, before, id);
      assert ItemOk(mail, item);
      if Concerns(mail, id, item) { BookedOn(mail, Open(mail, before, id), Seen(before, id), Times(mail, before, id), id, item.i); }
    }
  }

  /** Delivered twice, or delivered and half assembled again. */
  ghost predicate Overdone(mail: Mail, sched: seq<Item>, id: nat) {
    Times(mail, sched, id) >= 2 || (Times(mail, sched, id) == 1 && Open(mail, sched, id) != {})
  }

  lemma OverdoneStays(mail: Mail, sched: seq<Item>, id: nat)
    requires sched != [] && (Overdone(mail, sched[..|sched| - 1], id)
                             || (Times(mail, sched[..|sched| - 1], id) > 0 && Concerns(mail, id, sched[|sched| - 1])))
    ensures Overdone(mail, sched, id)
  {
  }

  /** Some message is overdone as soon as a slice of a complete one is sent, and ever after. */
  lemma {:induction false} SomeOverdone(mail: Mail, sched: seq<Item>) returns (id: nat)
    requires Items(mail, sched) && !Schedule(mail, sched)
    ensures id in mail && Sendable(id, mail[id]) && Overdone(mail, sched, id)
    decreases |sched|
  {
    var before, item := sched[..|sched| - 1], sched[|sched| - 1];
    assert ItemOk(mail, item);
    if !Schedule(mail, before) {
      id := SomeOverdone(mail, before);
    } else {
      id := item.id;
      FirstDelivery(mail, before, id);
    }
    OverdoneStays(mail, sched, id);
  }

  lemma {:induction false} DeliveredOnce(ms: seq<Message>, id: nat)
    requires Distinct(ms)
    ensures Deliveries(ms, id) <= 1
    ensures Deliveries(ms, id) == 0 <==> forall k :: 0 <= k < |ms| ==> ms[k].id != id
    decreases |ms|
  {
    if ms != [] { DeliveredOnce(ms[..|ms| - 1], id); }
  }

  lemma OverdoneIsNotExact(mail: Mail, sched: seq<Item>, core: Core, id: nat)
    requires Items(mail, sched) && Follows(mail, sched, core)
    requires id in mail && Sendable(id, mail[id]) && Overdone(mail, sched, id)
    ensures !Exact(mail, sched, core)
  {
    FirstDelivery(mail, sched, id);
    OpenBounded(mail, sched, id);
    assert TrackOne(mail, Open(mail, sched, id), core, id);
    if Distinct(core.completed) { DeliveredOnce(core.completed, id); }
  }

  /**
   For every sequence of slices and stream frames, repeated at will, and every way of cutting its bytes into
   Feed calls: each complete message is delivered exactly once and nothing else is pending if and only if
   no slice was sent of a message that was already complete.  Stream events arrive in order either way.
   */
  lemma ExactlySchedules(sum: Sum, mail: Mail, sched: seq<Item>, frames: seq<Frame>, chunks: seq<seq<byte>>)
    requires AllSendable(mail) && Encodes(sum, mail, sched, frames) && Flatten(chunks) == Wire(frames)
    ensures var fed := FeedAll(FrameHandler(sum), Fed([], EMPTY), chunks);
            && fed.Fed? && fed.buffer == [] && fed.core.events == StreamEvents(sched)
            && (Exact(mail, sched, fed.core) <==> Schedule(mail, sched))
  {
    var handle := FrameHandler(sum);
    var cores := TraceOfItems(sum, mail, sched, frames);
    RunWire(handle, frames, cores);
    FeedsLikeRun(handle, Wire(frames), chunks);
    if Schedule(mail, sched) {
      EveryMessageArrivesOnce(sum, mail, sched, frames, chunks);
    } else {
      ItemsEncoded(sum, mail, sched, frames);
      var id := SomeOverdone(mail, sched);
      OverdoneIsNotExact(mail, sched, cores[|sched|], id);
    }
  }
}
