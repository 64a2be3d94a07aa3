/** The classes of webapp/src/audio/browserAsrCapture.ts that keep the formal-audio outbox.
    Each method performs steps of the protocol in module Outbox; IndexedDB is a map whose
    operations are atomic, and what happens while a method waits is a script of events. */
module BrowserAsrCapture {
  import opened Wrappers
  import opened Sorting
  import opened Outbox

  predicate BySequence(left: Frame, right: Frame) { left.sequence <= right.sequence }

  ghost predicate Ascending(list: seq<Frame>) {
    forall i, j :: 0 <= i < j < |list| ==> list[i].sequence < list[j].sequence
  }

  /** `list` is the stored rows in the order of their sequences. */
  ghost predicate Stores(frames: map<nat, Frame>, list: seq<Frame>) {
    && Ascending(list)
    && (forall k :: 0 <= k < |list| ==> list[k].sequence in frames && frames[list[k].sequence] == list[k])
    && (forall s :: s in frames ==> frames[s].sequence == s && frames[s] in list)
  }

  lemma {:induction false} SameRowsSameList(a: seq<Frame>, b: seq<Frame>)
    requires Ascending(a) && Ascending(b) && forall f :: f in a <==> f in b
    ensures a == b
  {
    assert a != [] ==> a[0] in b;
    assert b != [] ==> b[0] in a;
    if a != [] && b != [] {
      var x, y := a[|a| - 1], b[|b| - 1];
      assert x in b && y in a;
      assert x == y;
      var c, d := a[..|a| - 1], b[..|b| - 1];
      forall f
        ensures f in c <==> f in d
      {
        assert f in c <==> f in a && f != x;
        assert f in d <==> f in b && f != x;
      }
      SameRowsSameList(c, d);
    }
  }

  lemma StoresUnique(frames: map<nat, Frame>, a: seq<Frame>, b: seq<Frame>)
    requires Stores(frames, a) && Stores(frames, b)
    ensures a == b
  {
    forall f
      ensures f in a <==> f in b
    {
      if f in a { assert frames[f.sequence] == f; }
      if f in b { assert frames[f.sequence] == f; }
    }
    SameRowsSameList(a, b);
  }

  lemma SortedRows(frames: map<nat, Frame>, rows: seq<Frame>)
    requires NoDuplicates(rows)
    requires forall k :: 0 <= k < |rows| ==> rows[k].sequence in frames && frames[rows[k].sequence] == rows[k]
    requires forall s :: s in frames ==> frames[s].sequence == s && frames[s] in rows
    ensures Stores(frames, Sort(rows, BySequence))
  {
    var list := Sort(rows, BySequence);
    SortSorted(rows, BySequence);
    SortNoDuplicates(rows, BySequence);
    forall f
      ensures f in list <==> f in rows
    {
      SortMembers(rows, BySequence, f);
    }
    forall k | 0 <= k < |list|
      ensures list[k].sequence in frames && frames[list[k].sequence] == list[k]
    {
      assert list[k] in rows;
    }
    forall i, j | 0 <= i < j < |list|
      ensures list[i].sequence < list[j].sequence
    {
      assert BySequence(list[i], list[j]) && list[i] != list[j];
    }
  }

  class BoundedBrowserAsrOutbox {
    var frames: map<nat, Frame>
    var progress: Option<Cursor>

    constructor ()
      ensures frames == map[] && progress == None
    {
      frames := map[];
      progress := None;
    }

    /** The rows come in any order and are sorted. */
    method List() returns (list: seq<Frame>)
      requires forall s :: s in frames ==> frames[s].sequence == s
      ensures Stores(frames, list)
    {
      var rows: seq<Frame> := [];
      var keys := frames.Keys;
      while keys != {}
        invariant keys <= frames.Keys && NoDuplicates(rows)
        invariant forall k :: 0 <= k < |rows| ==>
                    rows[k].sequence in frames && frames[rows[k].sequence] == rows[k] && rows[k].sequence !in keys
        invariant forall s :: s in frames && s !in keys ==> frames[s] in rows
        decreases |keys|
      {
        var key :| key in keys;
        rows := rows + [frames[key]];
        keys := keys - {key};
      }
      list := Sort(rows, BySequence);
      SortedRows(frames, rows);
    }

    /** A frame already stored is left alone; the same sequence with other data is refused,
        and so is a frame that does not fit. */
    method Append(frame: Frame, ghost pending: seq<Frame>) returns (r: Result<bool, OutboxError>)
      requires Stores(frames, pending) && ValidPcm(frame.pcm)
      modifies this`frames
      ensures Listed(pending, frame.sequence) ==>
                frames == old(frames)
                && r == (if pending[Find(pending, frame.sequence)] == frame then Success(true)
                         else Failure(SequenceReused))
      ensures !Listed(pending, frame.sequence) && Bytes(pending) + |frame.pcm| > MAX_FORMAL_OUTBOX_BYTES ==>
                frames == old(frames) && r == Failure(CapacityExhausted)
      ensures !Listed(pending, frame.sequence) && Bytes(pending) + |frame.pcm| <= MAX_FORMAL_OUTBOX_BYTES ==>
                r == Success(true) && frames == old(frames)[frame.sequence := frame]
    {
      StoredSequences(frames, pending);
      if frame.sequence in frames {
        assert frames[frame.sequence] == pending[Find(pending, frame.sequence)];
        if frames[frame.sequence] != frame {
          return Failure(SequenceReused);
        }
        return Success(true);
      }
      var existing := List();
      StoresUnique(frames, existing, pending);
      if Bytes(existing) + |frame.pcm| > MAX_FORMAL_OUTBOX_BYTES {
        return Failure(CapacityExhausted);
      }
      frames := frames[frame.sequence := frame];
      return Success(true);
    }

    method Acknowledge(sequence: nat)
      modifies this`frames
      ensures frames == old(frames) - {sequence}
    {
      frames := frames - {sequence};
    }

    method Clear()
      modifies this
      ensures frames == map[] && progress == None
    {
      frames := map[];
      progress := None;
    }

    method SaveProgress(cursor: Cursor)
      modifies this`progress
      ensures progress == Some(cursor)
    {
      progress := Some(cursor);
    }
  }

  lemma StoredSequences(frames: map<nat, Frame>, pending: seq<Frame>)
    requires Stores(frames, pending)
    ensures forall s :: s in frames <==> Listed(pending, s)
    ensures forall s :: s in frames ==> frames[s] == pending[Find(pending, s)]
  {
    forall s | s in frames
      ensures Listed(pending, s)
    {
      var k :| 0 <= k < |pending| && pending[k] == frames[s];
    }
  }

  class BrowserFormalIncompleteMarker {
    var sentOnSocket: bool
    var acknowledged: bool

    constructor ()
      ensures !sentOnSocket && !acknowledged
    {
      sentOnSocket := false;
      acknowledged := false;
    }

    function ShouldSend(failed: bool, pendingCount: nat, mayBypassPending: bool): bool
      reads this
    {
      failed && !sentOnSocket && !acknowledged && (pendingCount == 0 || mayBypassPending)
    }

    method MarkSent()
      modifies this
      ensures sentOnSocket && acknowledged == old(acknowledged)
    {
      sentOnSocket := true;
    }

    method Confirm()
      modifies this
      ensures acknowledged && sentOnSocket == old(sentOnSocket)
    {
      acknowledged := true;
    }

    method OnSocketClosed()
      modifies this
      ensures acknowledged == old(acknowledged) && sentOnSocket == (old(sentOnSocket) && acknowledged)
    {
      if !acknowledged {
        sentOnSocket := false;
      }
    }
  }

  /** A step that cannot be taken is not taken. */
  function Step(w: World, a: Action): World { if Enabled(w, a) then Next(w, a) else w }

  function Pumping(w: World): World { Step(w, Pump) }

  lemma PumpingKeeps(w: World)
    requires Good(w)
    ensures Good(Pumping(w)) && Pumping(w).appended == w.appended
  {
    hide Good;
    if Enabled(w, Pump) {
      StepKeeps(w, Pump);
    }
  }

  predicate HasRoom(w: World, bytes: nat) { Bytes(w.pending) + bytes <= MAX_FORMAL_OUTBOX_BYTES }

  /** How many frames a block of so many bytes takes. */
  function FrameCount(bytes: nat): nat { (bytes + MAX_FORMAL_FRAME_BYTES - 1) / MAX_FORMAL_FRAME_BYTES }

  lemma FrameCountIff(bytes: nat, k: nat)
    ensures k < FrameCount(bytes) <==> k * MAX_FORMAL_FRAME_BYTES < bytes
  {
  }

  /** The store takes the first `n` frames and their cursors. */
  predicate AllWork(committed: seq<bool>, saved: seq<bool>, n: nat) {
    n <= |committed| && n <= |saved| && forall k :: 0 <= k < n ==> committed[k] && saved[k]
  }

  /** From number `n` on all frames are full, except the last one if not `all`. */
  predicate FullFrom(frames: seq<Frame>, n: nat, all: bool) {
    forall i :: n <= i < |frames| && (all || i < |frames| - 1) ==> |frames[i].pcm| == MAX_FORMAL_FRAME_BYTES
  }

  lemma NothingNew(frames: seq<Frame>)
    ensures FullFrom(frames, |frames|, true) && FullFrom(frames, |frames|, false)
  {
  }

  lemma FullOneMore(frames: seq<Frame>, n: nat, frame: Frame)
    requires FullFrom(frames, n, true)
    ensures FullFrom(frames, n, false) && FullFrom(frames + [frame], n, false)
    ensures |frame.pcm| == MAX_FORMAL_FRAME_BYTES ==> FullFrom(frames + [frame], n, true)
  {
  }

  lemma BytesOneMore(frames: seq<Frame>, frame: Frame)
    ensures Bytes(frames + [frame]) == Bytes(frames) + |frame.pcm|
  {
    assert (frames + [frame])[..|frames|] == frames;
  }

  /** A frame for which there is room, with nothing happening in between, is stored and counted. */
  lemma QuietChunk(w: World, chunk: seq<bv8>)
    requires Good(w) && Enabled(w, Append(chunk)) && !w.session.value.failed && HasRoom(w, |chunk|)
    ensures var v := Pumping(Step(Step(w, Append(chunk)), SaveCursor));
            && Step(w, Append(chunk)).appended != w.appended
            && v.session.Some? && !v.session.value.failed && Bytes(v.pending) == Bytes(w.pending) + |chunk|
  {
    hide Good, Bytes, Listed, CursorAt;
    CursorIsEnd(w);
    AppendIsNew(w, chunk);
    var frame := Frame(w.session.value.cursor.nextSequence, w.session.value.cursor.nextStartSample, chunk);
    BytesOneMore(w.pending, frame);
    assert |w.appended + [frame]| == |w.appended| + 1;
  }

  class BrowserPcmStreamer {
    const outbox: BoundedBrowserAsrOutbox
    const marker: BrowserFormalIncompleteMarker
    var nextSequence: nat
    var nextStartSample: nat
    var connected: bool
    var inFlightSequence: Option<nat>
    var failed: bool
    var mayBypassOutbox: bool
    /** What the peer has been sent, and what it holds. */
    var sent: set<Frame>
    var held: set<Frame>
    ghost var world: World

    ghost predicate Valid()
      reads this, outbox, marker
    {
      && Good(world)
      && Stores(outbox.frames, world.pending)
      && world.progress == outbox.progress && world.sent == sent && world.held == held
      && world.session.Some?
      && world.session.value == Session(Cursor(nextSequence, nextStartSample), world.session.value.unsaved, connected,
                                        inFlightSequence, failed, mayBypassOutbox, marker.sentOnSocket,
                                        marker.acknowledged)
    }

    /** A page opens on what the browser stored; its cursor is still to be saved. */
    constructor Start(box: BoundedBrowserAsrOutbox, wasSent: set<Frame>, isHeld: set<Frame>, ghost w: World)
      requires Good(w) && w.session.None? && Stores(box.frames, w.pending) && w.progress == box.progress
      requires w.sent == wasSent && w.held == isHeld
      ensures Valid() && world == Step(w, Open) && outbox == box && fresh(marker)
    {
      hide Good, Reconcile;
      outbox := box;
      marker := new BrowserFormalIncompleteMarker();
      nextSequence, nextStartSample := 1, 0;
      connected, inFlightSequence, failed, mayBypassOutbox := false, None, false, false;
      sent, held := wasSent, isHeld;
      world := Next(w, Open);
      new;
      OpenKeeps(w);
      var pending := outbox.List();
      StoresUnique(outbox.frames, pending, w.pending);
      match Reconcile(outbox.progress, pending) {
        case Success(cursor) => nextSequence, nextStartSample := cursor.nextSequence, cursor.nextStartSample;
        case Failure(_) => failed := true;
      }
    }

    method SaveProgress(committed: bool)
      requires Valid() && world.session.value.unsaved
      modifies this`failed, this`world, outbox
      ensures Valid() && world == Step(old(world), if committed then SaveCursor else SaveFails)
    {
      hide Good, Stores;
      ghost var a := if committed then SaveCursor else SaveFails;
      StepKeeps(world, a);
      world := Next(world, a);
      if committed {
        outbox.SaveProgress(Cursor(nextSequence, nextStartSample));
      } else {
        failed := true;
      }
    }

    method AppendChunk(chunk: seq<bv8>, committed: bool) returns (ok: bool)
      requires Valid() && !world.session.value.unsaved && ValidPcm(chunk)
      modifies this, outbox
      ensures Valid() && world == Step(old(world), if committed then Append(chunk) else AppendFails)
      ensures ok <==> world.appended != old(world.appended)
    {
      hide Good, Bytes, Find, Stores, Listed, Next, CursorAt;
      ghost var a := if committed then Append(chunk) else AppendFails;
      StepKeeps(world, a);
      if !committed {
        AppendFailsNext(world);
        failed := true;
        world := Next(world, a);
        return false;
      }
      CursorIsEnd(world);
      AppendIsNew(world, chunk);
      AppendOutcome(world, chunk);
      var frame := Frame(nextSequence, nextStartSample, chunk);
      var r := outbox.Append(frame, world.pending);
      if r.Failure? {
        failed := true;
      } else {
        nextSequence := nextSequence + 1;
        nextStartSample := nextStartSample + |chunk| / 2;
        StoresAppend(old(outbox.frames), world.pending, frame);
      }
      world := Next(world, a);
      ok := r.Success?;
    }

    method PumpFormalOutbox()
      requires Valid()
      modifies this`inFlightSequence, this`sent, this`world, marker
      ensures Valid() && world == Pumping(old(world))
    {
      hide Good;
      PumpingKeeps(world);
      if marker.acknowledged || inFlightSequence.Some? || !connected {
        return;
      }
      var pending := outbox.List();
      StoresUnique(outbox.frames, pending, world.pending);
      world := Pumping(world);
      if marker.ShouldSend(failed, |pending|, mayBypassOutbox) {
        marker.MarkSent();
        return;
      }
      if |pending| == 0 {
        return;
      }
      var frame := pending[0];
      sent := sent + {frame};
      inFlightSequence := Some(frame.sequence);
    }

    /** Any acknowledgement message. One for a pending frame and its end deletes the frame, unless
        storage fails, and the next one may be sent; one for an older frame changes nothing; any
        other fails the page. The server confirms a pending frame only if it holds it. */
    method HandleFormalAck(sequence: nat, durableEnd: nat, deleted: bool)
      requires Valid() && connected
      requires sequence in outbox.frames && outbox.frames[sequence].End() == durableEnd ==>
                 var a := AckAction(outbox.frames[sequence], deleted); Enabled(world, a) && CursorFirst(world, a)
      modifies this, outbox, marker
      ensures Valid()
      ensures world == if sequence !in old(outbox.frames) then
                         if sequence < old(nextSequence) then old(world) else Step(old(world), AckRefused)
                       else if old(outbox.frames)[sequence].End() != durableEnd then Step(old(world), AckRefused)
                       else AfterAck(old(world), old(outbox.frames)[sequence], deleted)
    {
      hide Good, Stores, Pumping, Find, Listed, Enabled, CursorFirst, AfterAck;
      StoredSequences(outbox.frames, world.pending);
      var known := sequence in outbox.frames;
      if !known && sequence < nextSequence {
        return;
      }
      if !known || outbox.frames[sequence].End() != durableEnd {
        RefusedOutcome(world);
        failed := true;
        world := Step(world, AckRefused);
        return;
      }
      DeleteAcknowledged(outbox.frames[sequence], deleted);
    }

    /** removeBrowserFormalFrameAfterDurableAck and what follows it. */
    method DeleteAcknowledged(frame: Frame, deleted: bool)
      requires Valid() && frame.sequence in outbox.frames && outbox.frames[frame.sequence] == frame
      requires Enabled(world, AckAction(frame, deleted)) && CursorFirst(world, AckAction(frame, deleted))
      modifies this, outbox, marker
      ensures Valid() && world == AfterAck(old(world), frame, deleted)
    {
      hide Good, Stores, Pumping, Next, Find, Listed, Enabled, CursorFirst;
      ghost var w := world;
      StepKeeps(w, AckAction(frame, deleted));
      StoredSequences(outbox.frames, w.pending);
      AckOutcome(w, frame, deleted);
      world := Next(w, AckAction(frame, deleted));
      if inFlightSequence == Some(frame.sequence) {
        inFlightSequence := None;
      }
      if !deleted {
        failed, mayBypassOutbox := true, true;
        return;
      }
      StoresRemove(outbox.frames, w.pending, Find(w.pending, frame.sequence));
      outbox.Acknowledge(frame.sequence);
      PumpFormalOutbox();
    }

    /** A message that names a frame not yet sent. */
    method RefuseNext()
      requires Valid() && connected
      modifies this, outbox, marker
      ensures Valid() && world == Step(old(world), AckRefused) && Continues(old(world), world)
    {
      hide Good, Stores, Continues;
      RefusedOutcome(world);
      NextIsNew(world);
      StoredSequences(outbox.frames, world.pending);
      HandleFormalAck(nextSequence, 0, true);
    }

    method OnSocketClosed()
      requires Valid() && connected
      modifies this`connected, this`inFlightSequence, this`world, marker
      ensures Valid() && world == Step(old(world), Disconnect)
    {
      hide Good, Stores, Listed;
      StepKeeps(world, Disconnect);
      connected := false;
      inFlightSequence := None;
      marker.OnSocketClosed();
      world := Next(world, Disconnect);
    }

    method BindSocket()
      requires Valid() && !connected
      modifies this`connected, this`world
      ensures Valid() && world == Step(old(world), Connect)
    {
      hide Good, Stores, Listed;
      StepKeeps(world, Connect);
      connected := true;
      world := Next(world, Connect);
    }

    method ConfirmIncomplete()
      requires Valid() && connected && marker.sentOnSocket
      modifies this`failed, this`world, marker
      ensures Valid() && world == Step(old(world), MarkerAck)
    {
      hide Good, Stores, Listed;
      StepKeeps(world, MarkerAck);
      marker.Confirm();
      failed := true;
      world := Next(world, MarkerAck);
    }

    method ServerHolds(frame: Frame)
      requires Valid() && frame in sent
      modifies this`held, this`world
      ensures Valid() && world == old(world).(held := old(held) + {frame})
    {
      hide Good, Stores;
      HoldStep(world, frame);
      held := held + {frame};
      world := world.(held := held);
    }

    /** The acknowledgement of a held frame, whatever became of the frame since. */
    method HappenAck(frame: Frame, deleted: bool)
      requires Valid()
      modifies this, outbox, marker
      ensures Valid() && Continues(old(world), world)
    {
      hide Good, Find, Next, AfterAck, Continues, Stores, Pumping;
      NothingContinues(world);
      if connected && frame in held {
        HeldIsStored(world, outbox.frames, frame);
        var stored := frame.sequence in outbox.frames;
        if stored && deleted && !(outbox.progress.Some? && frame.sequence < outbox.progress.value.nextSequence) {
          return;
        }
        if stored {
          AckContinues(world, frame, deleted);
        }
        HandleFormalAck(frame.sequence, frame.End(), deleted);
      }
    }

    /** One event while a method waits; an event that cannot happen now does not. */
    method Happen(event: Action)
      requires Valid()
      modifies this, outbox, marker
      ensures Valid() && Continues(old(world), world)
    {
      hide Good, Stores, Next, Pumping, Continues;
      NothingContinues(world);
      match event {
        case Connect => if !connected { SessionContinues(world, Connect); BindSocket(); }
        case Disconnect => if connected { SessionContinues(world, Disconnect); OnSocketClosed(); }
        case AckRefused => if connected { RefuseNext(); }
        case MarkerAck =>
          if connected && marker.sentOnSocket {
            SessionContinues(world, MarkerAck);
            ConfirmIncomplete();
          }
        case Hold(frame) => if frame in sent { HoldContinues(world, frame); ServerHolds(frame); }
        case Pump => PumpingContinues(world); PumpFormalOutbox();
        case Ack(frame) => HappenAck(frame, true);
        case AckDeleteFails(frame) => HappenAck(frame, false);
        case _ =>
      }
    }

    method Await(events: seq<Action>)
      requires Valid()
      modifies this, outbox, marker
      ensures Valid() && Continues(old(world), world)
    {
      hide Good, Stores;
      var i := 0;
      while i < |events|
        invariant i <= |events| && Valid() && Continues(old(world), world)
      {
        Happen(events[i]);
        i := i + 1;
      }
    }

    /** One frame of a block: stored, counted, its cursor saved, and the outbox pumped, with
        any events at the two waits. The frame is appended unless the page has failed. */
    method PersistChunk(chunk: seq<bv8>, committed: bool, saved: bool, waits: seq<seq<Action>>) returns (ok: bool)
      requires Valid() && !world.session.value.unsaved && ValidPcm(chunk)
      modifies this, outbox, marker
      ensures Valid() && (ok ==> !world.session.value.unsaved) && (!ok ==> failed)
      ensures world.appended == old(world.appended)
              || world.appended == old(world.appended) + [Frame(old(nextSequence), old(nextStartSample), chunk)]
      ensures ok ==> world.appended != old(world.appended)
      ensures committed && saved && waits == [] && !old(failed) && HasRoom(old(world), |chunk|) ==>
                ok && !failed && Bytes(world.pending) == Bytes(old(world.pending)) + |chunk|
    {
      hide Good, Stores, Bytes, Next, Pumping;
      ghost var w := world;
      AppendOutcome(w, chunk);
      if !failed && HasRoom(w, |chunk|) {
        QuietChunk(w, chunk);
      }
      FailOutcome(w);
      ok := AppendChunk(chunk, committed);
      if !ok {
        return;
      }
      if |waits| > 0 {
        Await(waits[0]);
      }
      SaveOutcome(world);
      SaveProgress(saved);
      if !saved {
        return false;
      }
      if |waits| > 1 {
        Await(waits[1]);
      }
      PumpingContinues(world);
      PumpFormalOutbox();
    }

    /** A block of audio is cut into frames of at most 32000 bytes and appended in order.
        Unless the page fails, all of it is; in any case a prefix of it is. */
    method PersistFormalPcm(pcm: seq<bv8>, committed: seq<bool>, saved: seq<bool>, waits: seq<seq<seq<Action>>>)
      requires Valid() && |pcm| % 2 == 0 && (world.session.value.unsaved ==> failed)
      modifies this, outbox, marker
      ensures Valid() && (world.session.value.unsaved ==> failed)
      ensures old(world.appended) <= world.appended
      ensures Audio(old(world.appended)) <= Audio(world.appended) <= Audio(old(world.appended)) + pcm
      ensures !failed ==> Audio(world.appended) == Audio(old(world.appended)) + pcm
      ensures FullFrom(world.appended, |old(world.appended)|, false)
      ensures waits == [] && HasRoom(old(world), |pcm|) && AllWork(committed, saved, FrameCount(|pcm|)) ==>
                failed == old(failed)
    {
      hide Good, Stores, Audio, Next, Continues, Bytes, FrameCount, FullFrom;
      NothingNew(world.appended);
      if failed {
        assert Audio(world.appended) <= Audio(world.appended) + pcm;
        return;
      }
      ghost var w := world;
      ghost var quiet := waits == [] && HasRoom(w, |pcm|) && AllWork(committed, saved, FrameCount(|pcm|));
      var offset, k := 0, 0;
      assert Audio(w.appended) + pcm[..0] == Audio(w.appended);
      while offset < |pcm|
        invariant 0 <= offset <= |pcm| && offset % 2 == 0
        invariant Valid() && !world.session.value.unsaved
        invariant w.appended <= world.appended
        invariant Audio(world.appended) == Audio(w.appended) + pcm[..offset]
        invariant offset == k * MAX_FORMAL_FRAME_BYTES || offset == |pcm|
        invariant FullFrom(world.appended, |w.appended|, offset < |pcm|)
        invariant quiet ==> !failed && Bytes(world.pending) == Bytes(w.pending) + offset
      {
        FrameCountIff(|pcm|, k);
        var end := if offset + MAX_FORMAL_FRAME_BYTES < |pcm| then offset + MAX_FORMAL_FRAME_BYTES else |pcm|;
        var chunk := pcm[offset..end];
        CutOneMore(Audio(w.appended), pcm, offset, end);
        AudioOneMore(world.appended, Frame(nextSequence, nextStartSample, chunk));
        FullOneMore(world.appended, |w.appended|, Frame(nextSequence, nextStartSample, chunk));
        var ok := PersistChunk(chunk, k < |committed| && committed[k], k < |saved| && saved[k],
                               if k < |waits| then waits[k] else []);
        if !ok {
          PrefixOfWhole(Audio(w.appended), pcm, offset);
          PrefixOfWhole(Audio(w.appended), pcm, end);
          return;
        }
        offset := end;
        k := k + 1;
      }
      assert pcm[..offset] == pcm;
    }
  }

  lemma OnlyConflicts(progress: Option<Cursor>, pending: seq<Frame>)
    ensures Reconcile(progress, pending).Failure? ==> Reconcile(progress, pending) == Failure(CursorConflict)
  {
  }

  /** Recovery of a capture that was left behind: the pending frames are sent in order, and
      each is deleted once its acknowledgement names its own sequence and end. `acks` are the
      answers of the server, `completed` its confirmation of the end. */
  method RecoverCapture(box: BoundedBrowserAsrOutbox, acks: seq<(nat, nat)>, completed: bool, ghost listed: seq<Frame>)
    returns (r: Result<Cursor, OutboxError>, ghost done: nat)
    requires Stores(box.frames, listed)
    modifies box
    ensures done <= |listed| && done <= |acks| && forall i :: 0 <= i < done ==>
              acks[i] == (listed[i].sequence, listed[i].End())
    ensures r.Failure? ==> Stores(box.frames, listed[done..]) && box.progress == old(box.progress)
    ensures r.Success? ==> completed && listed != [] && done == |listed| && box.frames == map[] && box.progress == None
    ensures r.Success? ==> Reconcile(old(box.progress), listed) == r
    ensures r == Failure(NothingPending) <==> listed == []
    ensures Reconcile(old(box.progress), listed).Failure? ==> r.Failure? && done == 0
    ensures listed != [] && Reconcile(old(box.progress), listed).Success? ==>
              && (r == Failure(WrongAcknowledgement) <==> done < |listed|)
              && (done < |listed| ==> done >= |acks| || acks[done] != (listed[done].sequence, listed[done].End()))
              && (r == Failure(Unconfirmed) <==> done == |listed| && !completed)
  {
    hide Reconcile, Stores;
    done := 0;
    assert listed[0..] == listed;
    var pending := ListOf(box, listed);
    if pending == [] {
      return Failure(NothingPending), 0;
    }
    var cursor := Reconcile(box.progress, pending);
    if cursor.Failure? {
      OnlyConflicts(box.progress, pending);
      return cursor, 0;
    }
    var i := 0;
    while i < |pending|
      invariant i <= |pending| && i <= |acks| && done == i && box.progress == old(box.progress)
      invariant forall k :: 0 <= k < i ==> acks[k] == (listed[k].sequence, listed[k].End())
      invariant Stores(box.frames, listed[i..])
    {
      if i >= |acks| || acks[i] != (pending[i].sequence, pending[i].End()) {
        return Failure(WrongAcknowledgement), done;
      }
      StoresRemove(box.frames, listed[i..], 0);
      assert Without(listed[i..], 0) == listed[i + 1..];
      box.Acknowledge(pending[i].sequence);
      i := i + 1;
      done := i;
    }
    if !completed {
      return Failure(Unconfirmed), done;
    }
    box.Clear();
    return cursor, done;
  }

  /** A recovery that fails, and then the next start: it finds the end of the capture if and only
      if a frame is left or the cursor was saved there. */
  method RecoverThenStart(box: BoundedBrowserAsrOutbox, acks: seq<(nat, nat)>, completed: bool, ghost w: World)
    returns (r: Result<Cursor, OutboxError>, next: Result<Cursor, OutboxError>, ghost done: nat)
    requires Good(w) && w.session.None? && Stores(box.frames, w.pending) && box.progress == w.progress
    modifies box
    ensures done <= |w.pending| && done <= |acks|
    ensures r.Failure? ==>
              && next.Success?
              && (next.value == CursorAt(w.appended, |w.appended|) <==>
                    done < |w.pending| || Saved(w) == CursorAt(w.appended, |w.appended|))
    ensures r.Success? ==> next == Success(FIRST)
  {
    hide Good, Stores, Reconcile, CursorAt;
    r, done := RecoverCapture(box, acks, completed, w.pending);
    InterruptedRecoveryIff(w, done);
    if r.Success? {
      EmptyStores();
    }
    var pending := ListOf(box, if r.Success? then [] else w.pending[done..]);
    next := Reconcile(box.progress, pending);
    if r.Success? {
      ReconcileEmpty(None);
    }
  }

  lemma EmptyStores()
    ensures Stores(map[], [])
  {
  }

  method ListOf(box: BoundedBrowserAsrOutbox, ghost listed: seq<Frame>) returns (pending: seq<Frame>)
    requires Stores(box.frames, listed)
    ensures pending == listed
  {
    pending := box.List();
    StoresUnique(box.frames, pending, listed);
  }

  lemma PrefixOfWhole(head: seq<bv8>, pcm: seq<bv8>, n: nat)
    requires n <= |pcm|
    ensures head <= head + pcm[..n] <= head + pcm
  {
    assert head + pcm == head + pcm[..n] + pcm[n..];
  }

  lemma CutOneMore(head: seq<bv8>, pcm: seq<bv8>, n: nat, m: nat)
    requires n <= m <= |pcm|
    ensures head + pcm[..n] + pcm[n..m] == head + pcm[..m]
  {
    assert pcm[..n] + pcm[n..m] == pcm[..m];
  }

  lemma AudioOneMore(frames: seq<Frame>, frame: Frame)
    ensures Audio(frames + [frame]) == Audio(frames) + frame.pcm
  {
    assert (frames + [frame])[..|frames|] == frames;
  }

  /** Between two moments of one page the cursor stays, and nothing is appended. */
  ghost predicate Continues(w: World, v: World) {
    && v.appended == w.appended
    && (w.session.Some? ==>
          v.session.Some? && v.session.value.cursor == w.session.value.cursor
            && v.session.value.unsaved == w.session.value.unsaved)
  }

  lemma NothingContinues(w: World)
    ensures Continues(w, w)
  {
  }

  lemma SessionContinues(w: World, a: Action)
    requires w.session.Some? && Enabled(w, a) && a in {Connect, Disconnect, MarkerAck}
    ensures Continues(w, Next(w, a))
  {
  }

  lemma HoldContinues(w: World, frame: Frame)
    ensures Continues(w, w.(held := w.held + {frame}))
  {
  }

  lemma PumpingContinues(w: World)
    requires w.session.Some?
    ensures Continues(w, Pumping(w))
  {
  }

  lemma AckContinues(w: World, frame: Frame, deleted: bool)
    requires Enabled(w, AckAction(frame, deleted))
    ensures Continues(w, AfterAck(w, frame, deleted))
  {
    hide Find, Listed, Pumping;
    PumpingContinues(Next(w, AckAction(frame, deleted)));
  }

  lemma SaveOutcome(w: World)
    requires w.session.Some? && w.session.value.unsaved
    ensures Continues(w.(session := Some(w.session.value.(unsaved := false))), Next(w, SaveCursor))
    ensures Continues(w, Next(w, SaveFails)) && Next(w, SaveFails).session.value.failed
  {
  }

  lemma AppendFailsNext(w: World)
    requires w.session.Some? && !w.session.value.unsaved
    ensures Next(w, AppendFails) == WithSession(w, w.session.value.(failed := true))
  {
  }

  lemma FailOutcome(w: World)
    requires w.session.Some? && !w.session.value.unsaved
    ensures Continues(w, Next(w, AppendFails)) && Next(w, AppendFails).session.value.failed
  {
  }

  lemma NextIsNew(w: World)
    requires Good(w) && w.session.Some?
    ensures !Listed(w.pending, w.session.value.cursor.nextSequence)
  {
    hide Listed, Bytes, SamplesBefore;
    ListedIff(w, w.session.value.cursor.nextSequence);
  }

  lemma RefusedOutcome(w: World)
    requires Good(w) && w.session.Some? && w.session.value.connected
    ensures Step(w, AckRefused) == WithSession(w, w.session.value.(failed := true))
    ensures Good(Step(w, AckRefused)) && Continues(w, Step(w, AckRefused))
  {
    hide Good;
    StepKeeps(w, AckRefused);
  }

  /** A held frame that the store still lists under its sequence is the stored one. */
  lemma HeldIsStored(w: World, frames: map<nat, Frame>, frame: Frame)
    requires Good(w) && Stores(frames, w.pending) && frame in w.held && w.session.Some?
    ensures frame.sequence in frames <==> Listed(w.pending, frame.sequence)
    ensures frame.sequence in frames ==> frames[frame.sequence] == frame
    ensures frame.sequence !in frames ==> frame.sequence < w.session.value.cursor.nextSequence
  {
    hide Good, Stores, Find, Listed;
    StoredSequences(frames, w.pending);
    if frame.sequence in frames {
      AckedIsFound(w, frame);
    } else {
      OldAck(w, frame);
    }
  }

  function AckAction(frame: Frame, deleted: bool): Action { if deleted then Ack(frame) else AckDeleteFails(frame) }

  function AfterAck(w: World, frame: Frame, deleted: bool): World
    requires Enabled(w, AckAction(frame, deleted))
  {
    var v := Next(w, AckAction(frame, deleted));
    if deleted && Listed(w.pending, frame.sequence) then Pumping(v) else v
  }

  lemma HoldStep(w: World, frame: Frame)
    requires Good(w) && frame in w.sent
    ensures Enabled(w, Hold(frame)) && Good(w.(held := w.held + {frame}))
            && Next(w, Hold(frame)) == w.(held := w.held + {frame})
  {
    hide Good;
    HoldKeeps(w, frame);
  }

  lemma AckedIsFound(w: World, frame: Frame)
    requires Good(w) && frame in w.held && Listed(w.pending, frame.sequence)
    ensures w.pending[Find(w.pending, frame.sequence)] == frame
  {
    hide Listed, Find, Bytes, SamplesBefore;
    ListedIff(w, frame.sequence);
    assert Among(w.appended, frame, w.removed + 1);
  }

  /** What an acknowledgement of a held frame does: nothing when the frame is no longer
      pending, and otherwise the frame found in the store is the acknowledged one. */
  lemma AckOutcome(w: World, frame: Frame, deleted: bool)
    requires Good(w) && Enabled(w, AckAction(frame, deleted))
    ensures frame in w.held && w.session.Some?
    ensures var v := Next(w, AckAction(frame, deleted));
            if !Listed(w.pending, frame.sequence)
              then v == w && deleted && frame.sequence < w.session.value.cursor.nextSequence
            else
              && w.pending[Find(w.pending, frame.sequence)] == frame
              && v == if deleted
                then w.(pending := Without(w.pending, Find(w.pending, frame.sequence)), removed := w.removed + 1,
                                         session := Some(Cleared(w.session.value, frame.sequence)))
                      else WithSession(w, Cleared(w.session.value, frame.sequence).(failed := true, bypass := true))
  {
    hide Good, Listed, Find;
    if Listed(w.pending, frame.sequence) {
      AckedIsFound(w, frame);
    } else {
      OldAck(w, frame);
    }
  }

  lemma OldAck(w: World, frame: Frame)
    requires Good(w) && frame in w.held && w.session.Some? && !Listed(w.pending, frame.sequence)
    ensures frame.sequence < w.session.value.cursor.nextSequence
  {
    hide Listed, Find, Bytes, SamplesBefore;
    ListedIff(w, frame.sequence);
    assert Among(w.appended, frame, w.removed + 1);
  }

  lemma StoresAppend(frames: map<nat, Frame>, list: seq<Frame>, frame: Frame)
    requires Stores(frames, list) && forall k :: 0 <= k < |list| ==> list[k].sequence < frame.sequence
    ensures Stores(frames[frame.sequence := frame], list + [frame])
  {
    var all := list + [frame];
    assert all[|list|] == frame;
    var after := frames[frame.sequence := frame];
    forall s | s in after
      ensures after[s] in all && after[s].sequence == s
    {
      if s != frame.sequence {
        assert frames[s] in list;
      }
    }
  }

  function Without(list: seq<Frame>, k: nat): seq<Frame>
    requires k < |list|
  {
    list[..k] + list[k + 1..]
  }

  lemma WithoutAt(list: seq<Frame>, k: nat, i: nat)
    requires k < |list| && i < |list| - 1
    ensures |Without(list, k)| == |list| - 1 && Without(list, k)[i] == list[if i < k then i else i + 1]
  {
  }

  lemma WithoutAscending(list: seq<Frame>, k: nat)
    requires k < |list| && Ascending(list)
    ensures Ascending(Without(list, k))
    ensures forall i :: 0 <= i < |list| - 1 ==>
              Without(list, k)[i].sequence != list[k].sequence && Without(list, k)[i] in list
  {
    forall i, j | 0 <= i < j < |list| - 1
      ensures Without(list, k)[i].sequence < Without(list, k)[j].sequence
    {
      WithoutAt(list, k, i);
      WithoutAt(list, k, j);
    }
    forall i | 0 <= i < |list| - 1
      ensures Without(list, k)[i].sequence != list[k].sequence && Without(list, k)[i] in list
    {
      WithoutAt(list, k, i);
    }
  }

  lemma StoresRemove(frames: map<nat, Frame>, list: seq<Frame>, k: nat)
    requires Stores(frames, list) && k < |list|
    ensures Stores(frames - {list[k].sequence}, Without(list, k))
  {
    hide Ascending, Without;
    WithoutAscending(list, k);
    var rest, after := Without(list, k), frames - {list[k].sequence};
    WithoutLength(list, k);
    forall s | s in after
      ensures after[s].sequence == s && after[s] in rest
    {
      var i :| 0 <= i < |list| && list[i] == frames[s];
      var j := if i < k then i else i - 1;
      WithoutAt(list, k, j);
      assert rest[j] == after[s];
    }
  }

  lemma WithoutLength(list: seq<Frame>, k: nat)
    requires k < |list|
    ensures |Without(list, k)| == |list| - 1
  {
  }

  lemma CursorIsEnd(w: World)
    requires Good(w) && w.session.Some?
    ensures w.session.value.cursor == CursorAt(w.appended, |w.appended|)
    ensures !Listed(w.pending, w.session.value.cursor.nextSequence)
    ensures forall k :: 0 <= k < |w.pending| ==> w.pending[k].sequence < w.session.value.cursor.nextSequence
  {
    ListedIff(w, |w.appended| + 1);
    forall k | 0 <= k < |w.pending|
      ensures w.pending[k].sequence < w.session.value.cursor.nextSequence
    {
      PendingAt(w, k);
    }
  }

  lemma Longer(frames: seq<Frame>, frame: Frame)
    ensures frames + [frame] != frames
  {
    assert |frames + [frame]| == |frames| + 1;
  }

  lemma AppendIsNew(w: World, chunk: seq<bv8>)
    requires Enabled(w, Append(chunk)) && !Listed(w.pending, w.session.value.cursor.nextSequence)
    ensures var s := w.session.value;
            Next(w, Append(chunk)) ==
            if Bytes(w.pending) + |chunk| > MAX_FORMAL_OUTBOX_BYTES then WithSession(w, s.(failed := true))
            else
              var frame := Frame(s.cursor.nextSequence, s.cursor.nextStartSample, chunk);
              w.(pending := w.pending + [frame], appended := w.appended + [frame],
                 session := Some(s.(cursor := Cursor(frame.sequence + 1, frame.End()), unsaved := true)))
  {
  }

  lemma AppendOutcome(w: World, chunk: seq<bv8>)
    requires Good(w) && Enabled(w, Append(chunk))
    ensures var v := Next(w, Append(chunk));
            var frame := Frame(w.session.value.cursor.nextSequence, w.session.value.cursor.nextStartSample, chunk);
            && v.session.Some?
            && if v.appended == w.appended
               then v.session.value.failed && v.session.value.unsaved == w.session.value.unsaved
               else v.session.value.unsaved && v.appended == w.appended + [frame]
  {
    hide Bytes, Good, Listed, CursorAt, Next;
    CursorIsEnd(w);
    AppendIsNew(w, chunk);
    Longer(w.appended, Frame(w.session.value.cursor.nextSequence, w.session.value.cursor.nextStartSample, chunk));
  }
}
