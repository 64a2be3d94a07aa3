/** The formal-audio outbox of webapp/src/audio/browserAsrCapture.ts as a state machine:
    frames are persisted, sent lowest first, deleted when the server acknowledges them, and
    after a page reload the capture resumes from what was persisted. */
module Outbox {
  import opened Wrappers

  const MAX_FORMAL_OUTBOX_BYTES: nat := 16 * 1024 * 1024
  const MAX_FORMAL_FRAME_BYTES: nat := 32000

  datatype Frame = Frame(sequence: nat, startSample: nat, pcm: seq<bv8>) {
    function End(): nat { startSample + |pcm| / 2 }
  }

  datatype Cursor = Cursor(nextSequence: nat, nextStartSample: nat)

  const FIRST: Cursor := Cursor(1, 0)

  // ----- listing and reconciling -----

  /** The frame with the highest sequence in a list in any order. */
  function Latest(pending: seq<Frame>): Option<Frame> {
    if pending == [] then None
    else
      var current := Latest(pending[..|pending| - 1]);
      var frame := pending[|pending| - 1];
      if current.None? || frame.sequence > current.value.sequence then Some(frame) else current
  }

  lemma {:induction false} LatestIsHighest(pending: seq<Frame>)
    ensures Latest(pending).Some? <==> pending != []
    ensures Latest(pending).Some? ==>
              Latest(pending).value in pending && forall f :: f in pending ==>
                f.sequence <= Latest(pending).value.sequence
  {
    if pending != [] {
      LatestIsHighest(pending[..|pending| - 1]);
    }
  }

  datatype OutboxError =
    | CursorConflict | SequenceReused | CapacityExhausted | NothingPending | WrongAcknowledgement | Unconfirmed

  /** Where to go on after a reload: from the saved cursor, or from just after the last
      pending frame when that is further; a disagreement about its end is an error. */
  function Reconcile(progress: Option<Cursor>, pending: seq<Frame>): Result<Cursor, OutboxError> {
    var saved := if progress.Some? then progress.value else FIRST;
    match Latest(pending)
    case None => Success(saved)
    case Some(latest) =>
      var pendingCursor := Cursor(latest.sequence + 1, latest.End());
      if pendingCursor.nextSequence > saved.nextSequence then Success(pendingCursor)
      else if pendingCursor.nextSequence < saved.nextSequence then Success(saved)
      else if pendingCursor.nextStartSample != saved.nextStartSample
        then Failure(CursorConflict)
      else Success(saved)
  }

  function Bytes(frames: seq<Frame>): nat {
    if frames == [] then 0 else Bytes(frames[..|frames| - 1]) + |frames[|frames| - 1].pcm|
  }

  predicate ValidPcm(pcm: seq<bv8>) { 0 < |pcm| <= MAX_FORMAL_FRAME_BYTES && |pcm| % 2 == 0 }

  // ----- the protocol -----

  /** The page: its cursor, whether that cursor is still to be saved, and its socket. */
  datatype Session = Session(cursor: Cursor, unsaved: bool, connected: bool, inFlight: Option<nat>,
                             failed: bool, bypass: bool, markerSent: bool, confirmed: bool)

  /** `pending` is what the browser's store lists, ordered by sequence; `sent` is every frame
      put on a socket, `held` what the server has stored. `appended` and `removed` are the
      history: all frames ever appended, and how many of them have been deleted. */
  datatype World = World(pending: seq<Frame>, progress: Option<Cursor>, session: Option<Session>,
                         sent: set<Frame>, held: set<Frame>, appended: seq<Frame>, removed: nat)

  datatype Action =
    | Open
    | SaveCursor
    | SaveFails
    | Append(pcm: seq<bv8>)
    | AppendFails
    | Connect
    | Disconnect
    | Pump
    | Hold(frame: Frame)
    | Ack(frame: Frame)
    | AckDeleteFails(frame: Frame)
    | AckRefused
    | MarkerAck
    | Close

  const INITIAL: World := World([], None, None, {}, {}, [], 0)

  function Saved(w: World): Cursor { if w.progress.Some? then w.progress.value else FIRST }

  predicate Listed(pending: seq<Frame>, sequence: nat) {
    exists k :: 0 <= k < |pending| && pending[k].sequence == sequence
  }

  /** What the steps of the page, of the server and of the network need. The server
      acknowledges only what it holds, at any time and any number of times; AckRefused is a
      message that fits no frame. */
  predicate Enabled(w: World, a: Action) {
    match a
    case Open => w.session.None?
    case SaveCursor | SaveFails => w.session.Some? && w.session.value.unsaved
    case Append(pcm) => w.session.Some? && !w.session.value.unsaved && ValidPcm(pcm)
    case AppendFails => w.session.Some? && !w.session.value.unsaved
    case Connect => w.session.Some? && !w.session.value.connected
    case Disconnect => w.session.Some? && w.session.value.connected
    case Pump => w.session.Some? && w.session.value.connected && w.session.value.inFlight.None?
         && !w.session.value.confirmed
    case Hold(frame) => frame in w.sent
    case Ack(frame) => frame in w.held && w.session.Some? && w.session.value.connected
    case AckDeleteFails(frame) => frame in w.held && w.session.Some? && w.session.value.connected
         && Listed(w.pending, frame.sequence)
    case AckRefused => w.session.Some? && w.session.value.connected
    case MarkerAck => w.session.Some? && w.session.value.connected && w.session.value.markerSent
    case Close => w.session.Some?
  }

  /** The assumption on storage order: a frame is deleted only after a cursor beyond it was saved. */
  predicate CursorFirst(w: World, a: Action) {
    a.Ack? && Listed(w.pending, a.frame.sequence) ==> a.frame.sequence < Saved(w).nextSequence
  }

  function Find(pending: seq<Frame>, sequence: nat): (k: nat)
    requires Listed(pending, sequence)
    ensures k < |pending| && pending[k].sequence == sequence
  {
    if pending[0].sequence == sequence then 0 else 1 + Find(pending[1..], sequence)
  }

  function WithSession(w: World, s: Session): World { w.(session := Some(s)) }

  /** The marker is sent once per socket, after a failure, when nothing is pending or the
      pending frames can no longer be read or deleted. */
  predicate ShouldSendMarker(s: Session, pendingCount: nat) {
    s.failed && !s.markerSent && !s.confirmed && (pendingCount == 0 || s.bypass)
  }

  function Opened(w: World): World {
    match Reconcile(w.progress, w.pending)
    case Success(cursor) => WithSession(w, Session(cursor, true, false, None, false, false, false, false))
    case Failure(_) => WithSession(w, Session(FIRST, false, false, None, true, false, false, false))
  }

  function Appended(w: World, s: Session, pcm: seq<bv8>): World {
    var frame := Frame(s.cursor.nextSequence, s.cursor.nextStartSample, pcm);
    if Listed(w.pending, frame.sequence) then
      if w.pending[Find(w.pending, frame.sequence)] == frame then w else WithSession(w, s.(failed := true))
    else if Bytes(w.pending) + |pcm| > MAX_FORMAL_OUTBOX_BYTES then WithSession(w, s.(failed := true))
    else
      w.(pending := w.pending + [frame], appended := w.appended + [frame],
         session := Some(s.(cursor := Cursor(frame.sequence + 1, frame.End()), unsaved := true)))
  }

  function Pumped(w: World, s: Session): World {
    if ShouldSendMarker(s, |w.pending|) then WithSession(w, s.(markerSent := true))
    else if w.pending == [] then w
    else WithSession(w, s.(inFlight := Some(w.pending[0].sequence))).(sent := w.sent + {w.pending[0]})
  }

  function Cleared(s: Session, sequence: nat): Session {
    if s.inFlight == Some(sequence) then s.(inFlight := None) else s
  }

  function Acknowledged(w: World, s: Session, frame: Frame): World {
    if !Listed(w.pending, frame.sequence) then
      if frame.sequence < s.cursor.nextSequence then w else WithSession(w, s.(failed := true))
    else
      var k := Find(w.pending, frame.sequence);
      if w.pending[k].End() != frame.End() then WithSession(w, s.(failed := true))
      else
        w.(pending := w.pending[..k] + w.pending[k + 1..], removed := w.removed + 1,
           session := Some(Cleared(s, frame.sequence)))
  }

  function Next(w: World, a: Action): World
    requires Enabled(w, a)
  {
    match a
    case Open => Opened(w)
    case SaveCursor => w.(progress := Some(w.session.value.cursor), session := Some(w.session.value.(unsaved := false)))
    case SaveFails => WithSession(w, w.session.value.(failed := true))
    case Append(pcm) => Appended(w, w.session.value, pcm)
    case AppendFails => WithSession(w, w.session.value.(failed := true))
    case Connect => WithSession(w, w.session.value.(connected := true))
    case Disconnect =>
      WithSession(w,
                  w.session.value.(connected := false, inFlight := None,
                                   markerSent := w.session.value.markerSent && w.session.value.confirmed))
    case Pump => Pumped(w, w.session.value)
    case Hold(frame) => w.(held := w.held + {frame})
    case Ack(frame) => Acknowledged(w, w.session.value, frame)
    case AckDeleteFails(frame) =>
      WithSession(w, Cleared(w.session.value, frame.sequence).(failed := true, bypass := true))
    case AckRefused => WithSession(w, w.session.value.(failed := true))
    case MarkerAck => WithSession(w, w.session.value.(confirmed := true, failed := true))
    case Close => w.(session := None)
  }

  ghost predicate Run(w: World, actions: seq<Action>)
    decreases |actions|
  {
    actions == [] || (Enabled(w, actions[0]) && CursorFirst(w, actions[0]) && Run(Next(w, actions[0]), actions[1..]))
  }

  ghost function After(w: World, actions: seq<Action>): World
    requires Run(w, actions)
    decreases |actions|
  {
    if actions == [] then w else After(Next(w, actions[0]), actions[1..])
  }

  // ----- the invariant -----

  function SamplesBefore(frames: seq<Frame>, n: nat): nat
    requires n <= |frames|
  {
    if n == 0 then 0 else SamplesBefore(frames, n - 1) + |frames[n - 1].pcm| / 2
  }

  lemma {:induction false} SamplesBeforePrefix(frames: seq<Frame>, frame: Frame, n: nat)
    requires n <= |frames|
    ensures SamplesBefore(frames + [frame], n) == SamplesBefore(frames, n)
  {
    if n > 0 {
      SamplesBeforePrefix(frames, frame, n - 1);
    }
  }

  function CursorAt(frames: seq<Frame>, n: nat): Cursor
    requires n <= |frames|
  {
    Cursor(n + 1, SamplesBefore(frames, n))
  }

  /** Sequences count from 1 without a gap, and each frame starts where the last one ended. */
  ghost predicate Contiguous(frames: seq<Frame>) {
    forall i :: 0 <= i < |frames| ==>
      frames[i].sequence == i + 1 && frames[i].startSample == SamplesBefore(frames, i) && ValidPcm(frames[i].pcm)
  }

  /** Frame `f` is the one appended with its sequence, and one of the first `n`. */
  predicate Among(appended: seq<Frame>, f: Frame, n: nat) {
    1 <= f.sequence <= n && f.sequence <= |appended| && appended[f.sequence - 1] == f
  }

  /** What the persistent store and the server agree on. */
  ghost predicate Delivered(w: World) {
    && w.removed <= |w.appended|
    && w.pending == w.appended[w.removed..]
    && (forall f :: f in w.sent ==> Among(w.appended, f, w.removed + 1))
    && (forall f :: f in w.held ==> f in w.sent)
    && (forall i :: 0 <= i < w.removed ==> w.appended[i] in w.held)
  }

  /** The saved cursor is the end of the appended frames, or the one frame that it misses is pending. */
  ghost predicate Resumable(w: World) {
    exists m: nat :: w.removed <= m <= |w.appended| <= m + 1 && Saved(w) == CursorAt(w.appended, m)
  }

  ghost predicate Tracks(w: World) {
    w.session.Some? ==>
      var s := w.session.value;
      && s.cursor == CursorAt(w.appended, |w.appended|)
      && (!s.unsaved ==> Saved(w) == s.cursor)
      && (s.inFlight.Some? ==> w.pending != [] && s.inFlight.value == w.pending[0].sequence)
  }

  ghost predicate Good(w: World) {
    Contiguous(w.appended) && Delivered(w) && Bytes(w.pending) <= MAX_FORMAL_OUTBOX_BYTES && Resumable(w) && Tracks(w)
  }

  lemma GoodParts(w: World)
    requires Good(w)
    ensures Contiguous(w.appended) && Delivered(w) && Resumable(w) && Tracks(w)
    ensures w.removed <= |w.appended| && |w.pending| == |w.appended| - w.removed
  {
    hide Contiguous, Resumable, Tracks, Bytes;
  }

  lemma ListedIff(w: World, sequence: nat)
    requires Good(w)
    ensures Listed(w.pending, sequence) <==> w.removed < sequence <= |w.appended|
    ensures Listed(w.pending, sequence) ==> Find(w.pending, sequence) == sequence - w.removed - 1
  {
    hide Good, Delivered, Contiguous;
    GoodParts(w);
    if w.removed < sequence <= |w.appended| {
      PendingAt(w, sequence - w.removed - 1);
    }
    if Listed(w.pending, sequence) {
      PendingAt(w, Find(w.pending, sequence));
    }
  }

  lemma {:induction false} LatestIsLast(pending: seq<Frame>)
    requires forall i, j :: 0 <= i < j < |pending| ==> pending[i].sequence < pending[j].sequence
    ensures Latest(pending) == if pending == [] then None else Some(pending[|pending| - 1])
  {
    if pending != [] {
      LatestIsLast(pending[..|pending| - 1]);
    }
  }

  lemma PendingAt(w: World, k: nat)
    requires Delivered(w) && Contiguous(w.appended) && k < |w.pending|
    ensures w.removed + k < |w.appended| && w.pending[k] == w.appended[w.removed + k]
            && w.pending[k].sequence == w.removed + k + 1
  {
  }

  lemma PendingAscends(w: World)
    requires Delivered(w) && Contiguous(w.appended)
    ensures forall i, j :: 0 <= i < j < |w.pending| ==> w.pending[i].sequence < w.pending[j].sequence
  {
    forall i, j | 0 <= i < j < |w.pending|
      ensures w.pending[i].sequence < w.pending[j].sequence
    {
      PendingAt(w, i);
      PendingAt(w, j);
    }
  }

  lemma ReconcileCursor(progress: Option<Cursor>, pending: seq<Frame>, last: Frame, end: Cursor)
    requires Latest(pending) == Some(last) && end == Cursor(last.sequence + 1, last.End())
    requires (if progress.Some? then progress.value else FIRST) == end
             || (if progress.Some? then progress.value else FIRST).nextSequence < end.nextSequence
    ensures Reconcile(progress, pending) == Success(end)
  {
    hide Latest;
  }

  /** Reconciliation after a reload never fails and never goes back: it finds the position
      just after the last frame ever appended. */
  lemma ReconcileFindsEnd(w: World)
    requires Good(w)
    ensures Reconcile(w.progress, w.pending) == Success(CursorAt(w.appended, |w.appended|))
  {
    hide Reconcile, SamplesBefore, Contiguous, Bytes;
    var m: nat :| w.removed <= m <= |w.appended| <= m + 1 && Saved(w) == CursorAt(w.appended, m);
    PendingAscends(w);
    ReconcileTail(w.progress, w.appended, w.removed, m);
  }

  /** A page that opens goes on at the end of the capture, with nothing in flight and nothing
      failed, and has still to save that cursor. */
  lemma OpensAtEnd(w: World)
    requires Good(w) && Enabled(w, Open)
    ensures var s := Next(w, Open).session.value;
            && Next(w, Open) == w.(session := Some(s))
            && s.cursor == CursorAt(w.appended, |w.appended|) && s.unsaved && s.inFlight == None
            && !s.connected && !s.failed && !s.bypass && !s.markerSent && !s.confirmed
  {
    hide Good, Reconcile, CursorAt;
    ReconcileFindsEnd(w);
  }

  lemma ReconcileTail(progress: Option<Cursor>, appended: seq<Frame>, removed: nat, m: nat)
    requires Contiguous(appended) && removed <= m <= |appended| <= m + 1
    requires (if progress.Some? then progress.value else FIRST) == CursorAt(appended, m)
    requires forall i, j :: 0 <= i < j < |appended[removed..]| ==>
               appended[removed..][i].sequence < appended[removed..][j].sequence
    ensures Reconcile(progress, appended[removed..]) == Success(CursorAt(appended, |appended|))
  {
    hide Reconcile, Latest, SamplesBefore, Contiguous;
    var pending := appended[removed..];
    LatestIsLast(pending);
    if pending == [] {
      ReconcileEmpty(progress);
    } else {
      LastEnd(appended);
      assert pending[|pending| - 1] == appended[|appended| - 1];
      ReconcileCursor(progress, pending, appended[|appended| - 1], CursorAt(appended, |appended|));
    }
  }

  lemma LastEnd(frames: seq<Frame>)
    requires Contiguous(frames) && frames != []
    ensures CursorAt(frames, |frames|) == Cursor(frames[|frames| - 1].sequence + 1, frames[|frames| - 1].End())
  {
  }

  lemma ReconcileEmpty(progress: Option<Cursor>)
    ensures Reconcile(progress, []) == Success(if progress.Some? then progress.value else FIRST)
  {
  }

  lemma BytesAppend(frames: seq<Frame>, frame: Frame)
    ensures Bytes(frames + [frame]) == Bytes(frames) + |frame.pcm|
  {
    assert (frames + [frame])[..|frames|] == frames;
  }

  lemma {:induction false} BytesTail(frames: seq<Frame>)
    requires frames != []
    ensures Bytes(frames[1..]) <= Bytes(frames)
  {
    if |frames| > 1 {
      BytesTail(frames[..|frames| - 1]);
      assert frames[1..][..|frames| - 2] == frames[..|frames| - 1][1..];
    }
  }

  lemma OpenKeeps(w: World)
    requires Good(w) && w.session.None?
    ensures Good(Opened(w))
  {
    ReconcileFindsEnd(w);
    var v := Opened(w);
    assert Saved(v) == Saved(w);
  }

  /** The step only touches the session, and keeps its cursor. */
  lemma SessionKeeps(w: World, s: Session)
    requires Good(w) && w.session.Some?
    requires s.cursor == w.session.value.cursor && s.unsaved == w.session.value.unsaved
    requires s.inFlight.None? || s.inFlight == w.session.value.inFlight
    ensures Good(WithSession(w, s))
  {
    var v := WithSession(w, s);
    assert Saved(v) == Saved(w);
  }

  lemma SaveKeeps(w: World)
    requires Good(w) && Enabled(w, SaveCursor)
    ensures Good(Next(w, SaveCursor))
  {
    var v := Next(w, SaveCursor);
    assert Saved(v) == CursorAt(v.appended, |v.appended|);
  }

  /** A fresh sequence is never found in the store, so nothing is reused; a frame is added
      unless the store is full. */
  lemma AppendEffect(w: World, pcm: seq<bv8>)
    requires Good(w) && Enabled(w, Append(pcm))
    ensures var v := Next(w, Append(pcm));
            if Bytes(w.pending) + |pcm| > MAX_FORMAL_OUTBOX_BYTES
              then v == WithSession(w, w.session.value.(failed := true))
            else v.appended == w.appended + [Frame(|w.appended| + 1, SamplesBefore(w.appended, |w.appended|), pcm)]
                 && v.pending == w.pending + [v.appended[|w.appended|]]
  {
    ListedIff(w, |w.appended| + 1);
  }

  lemma ContiguousAppend(frames: seq<Frame>, frame: Frame)
    requires Contiguous(frames) && ValidPcm(frame.pcm)
    requires frame.sequence == |frames| + 1 && frame.startSample == SamplesBefore(frames, |frames|)
    ensures Contiguous(frames + [frame])
    ensures SamplesBefore(frames + [frame], |frames|) == SamplesBefore(frames, |frames|)
    ensures SamplesBefore(frames + [frame], |frames| + 1) == frame.End()
  {
    forall k | 0 <= k <= |frames|
      ensures SamplesBefore(frames + [frame], k) == SamplesBefore(frames, k)
    {
      SamplesBeforePrefix(frames, frame, k);
    }
  }

  lemma AppendKeeps(w: World, pcm: seq<bv8>)
    requires Good(w) && Enabled(w, Append(pcm))
    ensures Good(Next(w, Append(pcm)))
  {
    hide SamplesBefore, Bytes, Listed;
    AppendEffect(w, pcm);
    if Bytes(w.pending) + |pcm| > MAX_FORMAL_OUTBOX_BYTES {
      SessionKeeps(w, w.session.value.(failed := true));
    } else {
      var v, n := Next(w, Append(pcm)), |w.appended|;
      var frame := v.appended[n];
      ContiguousAppend(w.appended, frame);
      BytesAppend(w.pending, frame);
      AppendDelivered(w, v, frame);
      assert Saved(v) == CursorAt(v.appended, n);
      assert Resumable(v);
    }
  }

  lemma AppendDelivered(w: World, v: World, frame: Frame)
    requires Delivered(w) && v.appended == w.appended + [frame] && v.pending == w.pending + [frame]
    requires v.sent == w.sent && v.held == w.held && v.removed == w.removed
    ensures Delivered(v)
  {
    assert v.pending == v.appended[v.removed..];
    forall f | f in v.sent
      ensures Among(v.appended, f, v.removed + 1)
    {
      assert Among(w.appended, f, w.removed + 1);
    }
  }

  lemma SendDelivered(w: World, v: World)
    requires Delivered(w) && Contiguous(w.appended) && w.pending != []
    requires v.appended == w.appended && v.pending == w.pending && v.removed == w.removed
    requires v.sent == w.sent + {w.pending[0]} && v.held == w.held
    ensures Delivered(v)
  {
    PendingAt(w, 0);
    forall f | f in v.sent
      ensures Among(v.appended, f, v.removed + 1)
    {
      if f != w.pending[0] {
        assert Among(w.appended, f, w.removed + 1);
      }
    }
  }

  lemma PumpKeeps(w: World)
    requires Good(w) && Enabled(w, Pump)
    ensures Good(Next(w, Pump))
  {
    hide Delivered, Contiguous, Bytes, SamplesBefore;
    var s := w.session.value;
    var v := Next(w, Pump);
    assert Saved(v) == Saved(w);
    if ShouldSendMarker(s, |w.pending|) {
      SessionKeeps(w, s.(markerSent := true));
    } else if w.pending != [] {
      SendDelivered(w, v);
    }
  }

  lemma HoldKeeps(w: World, frame: Frame)
    requires Good(w) && Enabled(w, Hold(frame))
    ensures Good(Next(w, Hold(frame)))
  {
    var v := Next(w, Hold(frame));
    assert Saved(v) == Saved(w);
  }

  /** An acknowledgement removes the lowest pending frame, and only when it names that frame;
      every other acknowledgement of a held frame is an old one and changes nothing. */
  lemma AckEffect(w: World, frame: Frame)
    requires Good(w) && Enabled(w, Ack(frame))
    ensures var v := Next(w, Ack(frame));
            if w.pending != [] && frame == w.pending[0] then
              v == w.(pending := w.pending[1..], removed := w.removed + 1,
                      session := Some(Cleared(w.session.value, frame.sequence)))
            else v == w && frame.sequence <= w.removed
  {
    hide Listed, Find, Bytes, SamplesBefore, Resumable;
    ListedIff(w, frame.sequence);
    assert Among(w.appended, frame, w.removed + 1);
    if w.pending != [] {
      PendingAt(w, 0);
      assert w.pending[..0] + w.pending[1..] == w.pending[1..];
    }
  }

  lemma RemoveDelivered(w: World, v: World)
    requires Delivered(w) && w.pending != [] && w.pending[0] in w.held
    requires v.appended == w.appended && v.pending == w.pending[1..] && v.removed == w.removed + 1
    requires v.sent == w.sent && v.held == w.held
    ensures Delivered(v)
  {
    assert v.pending == v.appended[v.removed..];
    assert w.pending[0] == w.appended[w.removed];
    forall f | f in v.sent
      ensures Among(v.appended, f, v.removed + 1)
    {
      assert Among(w.appended, f, w.removed + 1);
    }
  }

  lemma AckKeeps(w: World, frame: Frame)
    requires Good(w) && Enabled(w, Ack(frame)) && CursorFirst(w, Ack(frame))
    ensures Good(Next(w, Ack(frame)))
  {
    hide Next, Bytes, SamplesBefore;
    AckEffect(w, frame);
    if w.pending != [] && frame == w.pending[0] {
      var v := Next(w, Ack(frame));
      PendingAt(w, 0);
      BytesTail(w.pending);
      RemoveDelivered(w, v);
      assert Listed(w.pending, frame.sequence);
      var m: nat :| w.removed <= m <= |w.appended| <= m + 1 && Saved(w) == CursorAt(w.appended, m);
      assert Saved(v) == CursorAt(v.appended, m);
    }
  }

  lemma StepKeeps(w: World, a: Action)
    requires Good(w) && Enabled(w, a) && CursorFirst(w, a)
    ensures Good(Next(w, a))
  {
    hide Good;
    match a {
      case Open => OpenKeeps(w);
      case SaveCursor => SaveKeeps(w);
      case SaveFails => SessionKeeps(w, Next(w, a).session.value);
      case Append(pcm) => AppendKeeps(w, pcm);
      case AppendFails => SessionKeeps(w, Next(w, a).session.value);
      case Connect => SessionKeeps(w, Next(w, a).session.value);
      case Disconnect => SessionKeeps(w, Next(w, a).session.value);
      case Pump => PumpKeeps(w);
      case Hold(frame) => HoldKeeps(w, frame);
      case Ack(frame) => AckKeeps(w, frame);
      case AckDeleteFails(frame) => SessionKeeps(w, Next(w, a).session.value);
      case AckRefused => SessionKeeps(w, Next(w, a).session.value);
      case MarkerAck => SessionKeeps(w, Next(w, a).session.value);
      case Close => CloseKeeps(w);
    }
  }

  lemma CloseKeeps(w: World)
    requires Good(w) && Enabled(w, Close)
    ensures Good(Next(w, Close)) && Next(w, Close) == w.(session := None)
  {
    var v := Next(w, Close);
    assert Saved(v) == Saved(w);
  }

  /** Everything reachable under the assumption on storage order is good. */
  lemma {:induction false} ReachableGood(w: World, actions: seq<Action>)
    requires Good(w) && Run(w, actions)
    ensures Good(After(w, actions))
    decreases |actions|
  {
    hide Good;
    if actions != [] {
      StepKeeps(w, actions[0]);
      ReachableGood(Next(w, actions[0]), actions[1..]);
    }
  }

  lemma InitiallyGood()
    ensures Good(INITIAL)
  {
    assert Saved(INITIAL) == CursorAt([], 0);
  }

  // ----- what this means for the audio -----

  function Audio(frames: seq<Frame>): seq<bv8> {
    if frames == [] then [] else Audio(frames[..|frames| - 1]) + frames[|frames| - 1].pcm
  }

  lemma {:induction false} AudioConcat(a: seq<Frame>, b: seq<Frame>)
    ensures Audio(a + b) == Audio(a) + Audio(b)
  {
    if b == [] {
      assert a + b == a;
    } else {
      var front, pcm := b[..|b| - 1], b[|b| - 1].pcm;
      AudioConcat(a, front);
      assert (a + b)[..|a + b| - 1] == a + front;
      assert Audio(a) + Audio(front) + pcm == Audio(a) + (Audio(front) + pcm);
    }
  }

  /** After any run, the frames deleted so far followed by the pending frames are all that
      was appended; the server holds every deleted frame; pending frames are one contiguous
      run that ends where the page appends next and that a reload finds again. */
  lemma NothingIsLost(actions: seq<Action>)
    requires Run(INITIAL, actions)
    ensures var w := After(INITIAL, actions);
            && Contiguous(w.appended)
            && w.removed <= |w.appended| && w.appended == w.appended[..w.removed] + w.pending
            && Audio(w.appended) == Audio(w.appended[..w.removed]) + Audio(w.pending)
            && (forall f :: f in w.appended[..w.removed] ==> f in w.held)
            && Bytes(w.pending) <= MAX_FORMAL_OUTBOX_BYTES
            && (w.session.Some? ==> w.session.value.cursor == CursorAt(w.appended, |w.appended|))
            && Reconcile(w.progress, w.pending) == Success(CursorAt(w.appended, |w.appended|))
  {
    hide Run, After, Reconcile, Contiguous, SamplesBefore, Bytes, Among, Audio;
    InitiallyGood();
    ReachableGood(INITIAL, actions);
    var w := After(INITIAL, actions);
    ReconcileFindsEnd(w);
    AudioConcat(w.appended[..w.removed], w.pending);
  }

  lemma NewlySent(w: World, a: Action, f: Frame)
    requires Enabled(w, a) && f in Next(w, a).sent && f !in w.sent
    ensures a.Pump? && w.pending != [] && f == w.pending[0]
  {
  }

  /** Only the lowest pending frame is ever put on a socket, and not while another is in flight. */
  lemma OnlyLowestIsSent(actions: seq<Action>, a: Action, f: Frame)
    requires Run(INITIAL, actions) && Enabled(After(INITIAL, actions), a)
    requires f in Next(After(INITIAL, actions), a).sent && f !in After(INITIAL, actions).sent
    ensures var w := After(INITIAL, actions);
            a.Pump? && w.session.value.inFlight.None? && w.pending != [] && f == w.pending[0]
            && forall k :: 0 < k < |w.pending| ==> f.sequence < w.pending[k].sequence
  {
    hide Run, After, Next;
    InitiallyGood();
    ReachableGood(INITIAL, actions);
    NewlySent(After(INITIAL, actions), a, f);
    PendingAscends(After(INITIAL, actions));
  }

  /** A frame leaves the store only on an acknowledgement of its own sequence and end sample
      that the server gave for exactly this frame. */
  lemma OnlyAckedIsDeleted(w: World, a: Action)
    requires Good(w) && Enabled(w, a)
    ensures var v := Next(w, a);
            if a.Ack? && w.pending != [] && a.frame == w.pending[0]
              then v.pending == w.pending[1..] && v.removed == w.removed + 1
            else w.pending <= v.pending && v.removed == w.removed
  {
    hide Good, Find, Listed, Reconcile, Bytes;
    if a.Ack? {
      AckEffect(w, a.frame);
    } else if a.Append? {
      AppendEffect(w, a.pcm);
    }
  }

  /** No step ever fails because of a reused sequence or a cursor conflict, nor for an
      acknowledgement of a frame that the server holds: a page fails only when storage does,
      when the store is full, when a message names a frame that was never sent so, or when the
      server says that the capture is incomplete. */
  lemma OnlyStorageFails(w: World, a: Action)
    requires Good(w) && Enabled(w, a)
    requires Next(w, a).session.Some? && Next(w, a).session.value.failed
    ensures (w.session.Some? && w.session.value.failed) || a in {SaveFails, AppendFails, AckRefused, MarkerAck}
            || a.AckDeleteFails?
            || (a.Append? && Bytes(w.pending) + |a.pcm| > MAX_FORMAL_OUTBOX_BYTES)
  {
    hide Good, Reconcile, Listed, Find, Bytes, CursorAt;
    match a {
      case Open => ReconcileFindsEnd(w);
      case Append(pcm) => AppendEffect(w, pcm);
      case Ack(frame) => AckEffect(w, frame);
      case _ =>
    }
  }

  lemma PumpSends(w: World)
    requires w.pending != [] && Enabled(w, Pump) && !w.session.value.failed
    ensures Next(w, Pump)
            == w.(session := Some(w.session.value.(inFlight := Some(w.pending[0].sequence))),
                  sent := w.sent + {w.pending[0]})
    ensures Enabled(Next(w, Pump), Hold(w.pending[0])) && CursorFirst(w, Pump)
  {
  }

  lemma HoldAdds(w: World, f: Frame)
    requires Enabled(w, Hold(f))
    ensures Next(w, Hold(f)) == w.(held := w.held + {f})
    ensures w.session.Some? && w.session.value.connected ==> Enabled(Next(w, Hold(f)), Ack(f))
    ensures CursorFirst(w, Hold(f))
  {
  }

  lemma AckRun(w: World)
    requires w.pending != [] && Enabled(w, Ack(w.pending[0]))
    requires w.pending[0].sequence < Saved(w).nextSequence && w.session.value.inFlight == Some(w.pending[0].sequence)
    requires Good(w)
    ensures Run(w, [Ack(w.pending[0])])
    ensures var v := After(w, [Ack(w.pending[0])]);
            v.pending == w.pending[1..] && v.session.Some? && v.session.value.inFlight.None?
  {
    hide Good, Listed, Next, Run, After;
    var a := Ack(w.pending[0]);
    AckEffect(w, w.pending[0]);
    RunNothing(Next(w, a));
    RunOne(w, a, []);
    assert [a] + [] == [a];
  }

  /** The drain makes progress: on a free socket of a page that has not failed, sending,
      storing and acknowledging deletes exactly the lowest frame and frees the socket. */
  lemma DrainOne(w: World)
    requires Good(w) && w.pending != [] && Enabled(w, Pump) && !w.session.value.failed
    requires w.pending[0].sequence < Saved(w).nextSequence
    ensures var actions := [Pump] + ([Hold(w.pending[0])] + [Ack(w.pending[0])]);
            && Run(w, actions)
            && After(w, actions).pending == w.pending[1..]
            && After(w, actions).session.Some? && After(w, actions).session.value.inFlight.None?
  {
    hide Good, Next, Run, After, CursorFirst, Enabled;
    var f := w.pending[0];
    EnabledPump(w);
    PumpSends(w);
    PumpKeeps(w);
    var u := Next(w, Pump);
    HoldAdds(u, f);
    HoldKeeps(u, f);
    var v := Next(u, Hold(f));
    AckRun(v);
    RunOne(u, Hold(f), [Ack(f)]);
    RunOne(w, Pump, [Hold(f)] + [Ack(f)]);
  }

  lemma EnabledPump(w: World)
    requires Enabled(w, Pump)
    ensures w.session.Some? && w.session.value.connected
  {
  }

  /** The incomplete marker comes last: unless storage failed, it is sent only when the server
      holds everything that was ever appended, so nothing that can be delivered is given up. */
  lemma MarkerComesLast(w: World)
    requires Good(w) && Enabled(w, Pump) && !w.session.value.markerSent && Next(w, Pump).session.value.markerSent
    ensures w.session.value.failed
    ensures !w.session.value.bypass ==> forall f :: f in w.appended ==> f in w.held
  {
    if !w.session.value.bypass {
      assert w.pending == [] && w.removed == |w.appended|;
      forall f | f in w.appended
        ensures f in w.held
      {
        var i :| 0 <= i < |w.appended| && w.appended[i] == f;
      }
    }
  }

  /** The marker goes out with the first chance after a failure, once nothing is pending or the
      pending frames are given up; it goes out once on a socket, and again on the next one
      unless it was confirmed. */
  lemma MarkerOnceOnASocket(w: World, a: Action)
    requires Good(w) && Enabled(w, a) && w.session.Some? && Next(w, a).session.Some?
    ensures var (s, t) := (w.session.value, Next(w, a).session.value);
            && (!s.markerSent && t.markerSent <==>
                a.Pump? && s.failed && !s.markerSent && (w.pending == [] || s.bypass))
            && (s.markerSent && !t.markerSent <==> s.markerSent && a.Disconnect? && !s.confirmed)
            && (a.Pump? && !s.markerSent && t.markerSent ==> Next(w, a) == w.(session := Some(s.(markerSent := true))))
  {
    hide Good, Reconcile, Listed, Find, Bytes;
  }

  // ----- the assumption on storage order is exactly what is needed -----

  /** The page goes away right after a deletion and is opened again. */
  function Reopened(w: World, frame: Frame): World
    requires Enabled(w, Ack(frame))
  {
    Opened(Next(w, Ack(frame)).(session := None))
  }

  /** After deleting the lowest frame, a reload goes on where the capture stopped if and only
      if a cursor beyond that frame had been saved; otherwise it appends its sequence again. */
  lemma ReuseIff(w: World)
    requires Good(w) && w.pending != [] && Enabled(w, Ack(w.pending[0]))
    ensures var v := Reopened(w, w.pending[0]);
            && v.session.Some?
            && (v.session.value.cursor == CursorAt(w.appended, |w.appended|) <==>
                w.pending[0].sequence < Saved(w).nextSequence)
            && (w.pending[0].sequence >= Saved(w).nextSequence ==>
                v.session.value.cursor.nextSequence == w.pending[0].sequence)
  {
    hide Good, Next, Delivered, Contiguous, Tracks, Listed, SamplesBefore, Latest;
    GoodParts(w);
    PendingAt(w, 0);
    var f := w.pending[0];
    var u := Next(w, Ack(f));
    AckEffect(w, f);
    if f.sequence < Saved(w).nextSequence {
      AckKeeps(w, f);
      CloseKeeps(u);
      ReconcileFindsEnd(u.(session := None));
    } else {
      assert |w.appended| == w.removed + 1;
      assert u.pending == [];
      ReconcileEmpty(u.progress);
    }
  }

  /** Such a deletion is reachable: one frame is appended, sent and acknowledged before its
      cursor is saved. */
  lemma ReuseReachable(pcm: seq<bv8>) returns (actions: seq<Action>)
    requires ValidPcm(pcm)
    ensures Run(INITIAL, actions)
    ensures var w := After(INITIAL, actions);
            && w.pending != [] && Enabled(w, Ack(w.pending[0]))
            && Reopened(w, w.pending[0]).session.value.cursor == FIRST && |w.appended| == 1
  {
    hide Run, After;
    var f := Frame(1, 0, pcm);
    var w1 := Next(INITIAL, Open);
    var w2 := Next(w1, SaveCursor);
    assert w2.pending == [] && Enabled(w2, Append(pcm));
    FirstAppend(w2, pcm);
    var w3 := Next(w2, Append(pcm));
    var w4 := Next(w3, Connect);
    var w5 := Next(w4, Pump);
    var w6 := Next(w5, Hold(f));
    RunNothing(w6);
    assert [Hold(f)] + [] == [Hold(f)];
    RunOne(w5, Hold(f), []);
    RunOne(w4, Pump, [Hold(f)]);
    RunOne(w3, Connect, [Pump] + [Hold(f)]);
    RunOne(w2, Append(pcm), [Connect] + ([Pump] + [Hold(f)]));
    RunOne(w1, SaveCursor, [Append(pcm)] + ([Connect] + ([Pump] + [Hold(f)])));
    RunOne(INITIAL, Open, [SaveCursor] + ([Append(pcm)] + ([Connect] + ([Pump] + [Hold(f)]))));
    actions := [Open] + ([SaveCursor] + ([Append(pcm)] + ([Connect] + ([Pump] + [Hold(f)]))));
    FirstReopened(w6, f);
  }

  lemma FirstAppend(w: World, pcm: seq<bv8>)
    requires Enabled(w, Append(pcm)) && w.pending == [] && w.session.value.cursor == FIRST && w.appended == []
    ensures var v := Next(w, Append(pcm));
            v.pending == [Frame(1, 0, pcm)] == v.appended && v.progress == w.progress && v.sent == w.sent
              && v.held == w.held
            && v.session == Some(w.session.value.(cursor := Cursor(2, |pcm| / 2), unsaved := true))
  {
  }

  lemma FirstReopened(w: World, frame: Frame)
    requires Enabled(w, Ack(frame)) && w.pending == [frame] && Saved(w) == FIRST
    ensures Reopened(w, frame).session.Some? && Reopened(w, frame).session.value.cursor == FIRST
  {
    assert w.pending[0].sequence == frame.sequence;
    var v := Next(w, Ack(frame));
    assert v.pending == [];
    ReconcileEmpty(v.progress);
  }

  lemma RunNothing(w: World)
    ensures Run(w, []) && After(w, []) == w
  {
  }

  lemma RunOne(w: World, a: Action, rest: seq<Action>)
    requires Enabled(w, a) && CursorFirst(w, a) && Run(Next(w, a), rest)
    ensures Run(w, [a] + rest) && After(w, [a] + rest) == After(Next(w, a), rest)
  {
    assert ([a] + rest)[1..] == rest;
  }

  /** What a recovery leaves that stops after `k` deletions; it saves no cursor. */
  function Recovered(w: World, k: nat): World
    requires k <= |w.pending|
  {
    w.(pending := w.pending[k..], removed := w.removed + k)
  }

  /** Recovery sends and deletes the pending frames without saving a cursor. If it stops after
      `k` of them, the next start goes on where the capture stopped if and only if a frame is
      left or the cursor was already saved at that point; otherwise the sequence of the last
      frame is used again. */
  lemma InterruptedRecoveryIff(w: World, k: nat)
    requires Good(w) && w.session.None? && k <= |w.pending|
    ensures var v := Recovered(w, k);
            var end := CursorAt(w.appended, |w.appended|);
            && Reconcile(v.progress, v.pending).Success?
            && Opened(v).session.Some?
            && Opened(v).session.value.cursor == Reconcile(v.progress, v.pending).value
            && (Opened(v).session.value.cursor == end <==> k < |w.pending| || Saved(w) == end)
            && (Opened(v).session.value.cursor != end ==>
                  w.pending != [] && Opened(v).session.value.cursor.nextSequence == w.pending[|w.pending| - 1].sequence)
  {
    hide Reconcile, Contiguous, Bytes, SamplesBefore, Delivered, Tracks;
    RecoveredCursor(w, k);
    var m: nat :| w.removed <= m <= |w.appended| <= m + 1 && Saved(w) == CursorAt(w.appended, m);
    if m < |w.appended| {
      LastPending(w);
    }
  }

  lemma LastPending(w: World)
    requires Good(w) && w.removed < |w.appended|
    ensures w.pending != [] && w.pending[|w.pending| - 1].sequence == |w.appended|
  {
    PendingAt(w, |w.pending| - 1);
  }

  /** Where the next start goes on: at the end while a frame is left, else at the saved cursor. */
  lemma RecoveredCursor(w: World, k: nat)
    requires Good(w) && k <= |w.pending|
    ensures Reconcile(w.progress, w.pending[k..]) ==
            Success(if k < |w.pending| then CursorAt(w.appended, |w.appended|) else Saved(w))
  {
    hide SamplesBefore, Reconcile, Latest, Good, Delivered, Contiguous, Tracks;
    GoodParts(w);
    var pending := w.pending[k..];
    if k < |w.pending| {
      PendingAt(w, |w.pending| - 1);
      var m: nat :| w.removed <= m <= |w.appended| <= m + 1 && Saved(w) == CursorAt(w.appended, m);
      PendingAscends(w);
      LatestIsLast(pending);
      LastEnd(w.appended);
      assert pending[|pending| - 1] == w.appended[|w.appended| - 1];
      ReconcileCursor(w.progress, pending, w.appended[|w.appended| - 1], CursorAt(w.appended, |w.appended|));
    } else {
      assert pending == [];
      ReconcileEmpty(w.progress);
    }
  }

  /** A capture on which it happens is reachable: the page goes away between the storing of its
      first frame and the saving of its cursor. A recovery that deletes the frame and is not
      confirmed then leads to a second frame with the first sequence. */
  lemma RecoveryReuseReachable(pcm: seq<bv8>) returns (actions: seq<Action>)
    requires ValidPcm(pcm)
    ensures Run(INITIAL, actions)
    ensures var w := After(INITIAL, actions);
            && Good(w) && w.session.None? && w.pending == [Frame(1, 0, pcm)]
            && Opened(Recovered(w, 1)).session.value.cursor == FIRST
  {
    hide Run, After, Good;
    var w1 := Next(INITIAL, Open);
    var w2 := Next(w1, SaveCursor);
    FirstAppend(w2, pcm);
    var w3 := Next(w2, Append(pcm));
    var w4 := Next(w3, Close);
    RunNothing(w4);
    assert [Close] + [] == [Close];
    RunOne(w3, Close, []);
    RunOne(w2, Append(pcm), [Close]);
    RunOne(w1, SaveCursor, [Append(pcm)] + [Close]);
    RunOne(INITIAL, Open, [SaveCursor] + ([Append(pcm)] + [Close]));
    actions := [Open] + ([SaveCursor] + ([Append(pcm)] + [Close]));
    InitiallyGood();
    ReachableGood(INITIAL, actions);
    assert Recovered(w4, 1).pending == [];
    ReconcileEmpty(Recovered(w4, 1).progress);
  }
}
