/**
  The world image pipeline: the UI thread and one image thread share four latest-wins slots and a
  wake channel that holds one token. Images and protocols are represented by the frame they show.
 */
module ImagePipeline {
  import opened Options
  import opened HostCommands

  datatype Frame = Frame(source: FrameSource, bytes: nat)

  datatype DecodeJob = DecodeJob(generation: nat, frame: Frame)

  datatype EncodeKey = EncodeKey(generation: nat, width: nat, height: nat, scaled: bool)

  datatype EncodeJob = EncodeJob(key: EncodeKey, frame: Frame)

  /** A finished job with whether the codec succeeded. */
  datatype Decoded = Decoded(job: DecodeJob, ok: bool)
  datatype Encoded = Encoded(job: EncodeJob, ok: bool)

  datatype Mailbox = Mailbox(decode: Option<DecodeJob>, decoded: Option<Decoded>,
                             encode: Option<EncodeJob>, encoded: Option<Encoded>)

  /** Where the image thread stands in its loop. */
  datatype Activity =
    | Waiting
    | TakingDecode
    | Decoding(decodeJob: DecodeJob)
    | TakingEncode
    | Encoding(encodeJob: EncodeJob)

  /** Which frames the codec can decode and encode. */
  datatype Codec = Codec(decodes: Frame -> bool, encodes: EncodeJob -> bool)

  /** `waking` is set while the UI thread has filled a slot and not yet tried to send the token. */
  datatype MediaState = MediaState(enabled: bool, generation: nat, source: Option<FrameSource>, ready: bool,
                         paused: bool, lastRequest: Option<nat>,
                         image: Option<DecodeJob>, requested: Option<EncodeKey>, displayed: Option<EncodeJob>,
                         mailbox: Mailbox, token: bool, thread: Activity, waking: bool)

  const Empty: Mailbox := Mailbox(None, None, None, None)

  const Initial: MediaState := MediaState(false, 0, None, false, false, None, None, None, None, Empty, false, Waiting, false)

  // ---------------------------------------------------------------- steps of the UI thread

  /** A new image thread, or none, with a mailbox and a wake channel of its own. */
  function Configured(m: MediaState, on: bool): MediaState {
    MediaState(on, m.generation + 1, m.source, false, m.paused, None, None, None, None, Empty, false, Waiting, false)
  }

  function SourceSet(m: MediaState, source: FrameSource): MediaState {
    if m.source == Some(source) then m
    else
      var n := m.(source := Some(source), generation := m.generation + 1, ready := false, lastRequest := None);
      if m.enabled then n.(image := None, requested := None, displayed := None, mailbox := Empty) else n
  }

  /** The least number of milliseconds between two frames asked for. */
  const FrameInterval: nat := 500

  /** Whether the frame in view is due, and with it the source that is selected and the time of asking. */
  function ShouldRequest(m: MediaState, visible: bool, source: FrameSource, now: nat): (MediaState, bool) {
    if !visible || m.paused || !m.enabled then (m, false)
    else
      var n := SourceSet(m, source);
      if n.lastRequest.Some? && now < n.lastRequest.value + FrameInterval then (n, false)
      else (n.(lastRequest := Some(now)), true)
  }

  predicate Accepts(m: MediaState, frame: Frame) {
    m.source.None? || m.source.value == frame.source
  }

  function Submitted(m: MediaState, frame: Frame): MediaState {
    if !Accepts(m, frame) then m
    else
      var n := m.(source := Some(frame.source), generation := m.generation + 1);
      if m.enabled
      then n.(mailbox := m.mailbox.(decode := Some(DecodeJob(n.generation, frame))), waking := true)
      else n
  }

  /** `try_send`: a token that is already there is enough. */
  function Woken(m: MediaState): MediaState {
    if m.waking then m.(token := true, waking := false) else m
  }

  /** A finished picture is shown if it is the one requested. */
  function EncodedTaken(m: MediaState): MediaState {
    var n := m.(mailbox := m.mailbox.(encoded := None));
    match m.mailbox.encoded
    case Some(e) => if m.requested == Some(e.job.key) && e.ok then n.(displayed := Some(e.job), ready := true) else n
    case None => n
  }

  /** A decoded image replaces the current one if it is of the latest frame. */
  function DecodedTaken(m: MediaState): MediaState {
    var n := m.(mailbox := m.mailbox.(decoded := None));
    match m.mailbox.decoded
    case Some(d) => if d.job.generation == m.generation && d.ok then n.(image := Some(d.job), requested := None) else n
    case None => n
  }

  function Polled(m: MediaState): MediaState {
    if m.enabled then DecodedTaken(EncodedTaken(m)) else m
  }

  /** Whether a poll completes something, and whether that succeeded; a decode is reported before an encode. */
  function Completion(m: MediaState): Option<bool> {
    if !m.enabled then None
    else if m.mailbox.decoded.Some? && m.mailbox.decoded.value.job.generation == m.generation then Some(m.mailbox.decoded.value.ok)
    else if m.mailbox.encoded.Some? && m.requested == Some(m.mailbox.encoded.value.job.key) then Some(m.mailbox.encoded.value.ok)
    else None
  }

  function KeyFor(job: DecodeJob, width: nat, height: nat, scaled: bool): EncodeKey {
    EncodeKey(job.generation, width, height, scaled)
  }

  function Rendered(m: MediaState, width: nat, height: nat, scaled: bool): MediaState {
    if width == 0 || height == 0 || !m.enabled || m.image.None? then m
    else
      var key := KeyFor(m.image.value, width, height, scaled);
      if m.requested == Some(key) then m
      else m.(mailbox := m.mailbox.(encode := Some(EncodeJob(key, m.image.value.frame))), requested := Some(key), waking := true)
  }

  // ---------------------------------------------------------------- the image thread

  function ThreadStep(m: MediaState, codec: Codec): MediaState {
    if !m.enabled then m
    else match m.thread
      case Waiting => if m.token then m.(token := false, thread := TakingDecode) else m
      case TakingDecode =>
        (match m.mailbox.decode
         case Some(job) => m.(mailbox := m.mailbox.(decode := None), thread := Decoding(job))
         case None => m.(thread := TakingEncode))
      case Decoding(job) =>
        m.(mailbox := m.mailbox.(decoded := Some(Decoded(job, codec.decodes(job.frame)))), thread := TakingEncode)
      case TakingEncode =>
        (match m.mailbox.encode
         case Some(job) => m.(mailbox := m.mailbox.(encode := None), thread := Encoding(job))
         case None => m.(thread := Waiting))
      case Encoding(job) =>
        m.(mailbox := m.mailbox.(encoded := Some(Encoded(job, codec.encodes(job)))), thread := Waiting)
  }

  // ---------------------------------------------------------------- the same steps in place

  class WorldMedia {
    var enabled: bool
    var generation: nat
    var source: Option<FrameSource>
    var ready: bool
    var paused: bool
    var lastRequest: Option<nat>
    var image: Option<DecodeJob>
    var requested: Option<EncodeKey>
    var displayed: Option<EncodeJob>
    var mailbox: Mailbox
    var token: bool
    var thread: Activity

    function View(): MediaState
      reads this
    {
      MediaState(enabled, generation, source, ready, paused, lastRequest, image, requested, displayed, mailbox, token, thread, false)
    }

    method Configure(on: bool)
      modifies this
      ensures View() == old(Configured(View(), on))
    {
      enabled, mailbox, token, thread := on, Empty, false, Waiting;
      image, requested, displayed := None, None, None;
      lastRequest := None;
      ready := false;
      generation := generation + 1;
    }

    method SetSource(selected: FrameSource)
      modifies this`source, this`generation, this`lastRequest, this`ready, this`image, this`requested, this`displayed, this`mailbox
      ensures View() == old(SourceSet(View(), selected))
    {
      if source == Some(selected) {
        return;
      }
      source := Some(selected);
      generation := generation + 1;
      lastRequest := None;
      ready := false;
      if enabled {
        image, requested, displayed := None, None, None;
        ClearSlots();
      }
    }

    method ClearSlots()
      modifies this`mailbox
      ensures mailbox == Empty
    {
      mailbox := mailbox.(decode := None);
      mailbox := mailbox.(decoded := None);
      mailbox := mailbox.(encode := None);
      mailbox := mailbox.(encoded := None);
    }

    /** Whether to ask for the visible frame now. */
    method Due(visible: bool, selected: FrameSource, now: nat) returns (due: bool)
      modifies this
      ensures (View(), due) == old(ShouldRequest(View(), visible, selected, now))
    {
      if !visible || paused || !enabled {
        return false;
      }
      SetSource(selected);
      if lastRequest.Some? && now < lastRequest.value + FrameInterval {
        return false;
      }
      lastRequest := Some(now);
      return true;
    }

    method Submit(frame: Frame)
      modifies this
      ensures View() == old(Woken(Submitted(View(), frame)))
    {
      if source.Some? && source.value != frame.source {
        return;
      }
      source := Some(frame.source);
      generation := generation + 1;
      if enabled {
        mailbox := mailbox.(decode := Some(DecodeJob(generation, frame)));
        token := true;
      }
    }

    /** Takes finished work; returns whether anything completed and whether it succeeded. */
    method Poll() returns (completion: Option<bool>)
      modifies this
      ensures View() == old(Polled(View()))
      ensures completion == old(Completion(View()))
    {
      if !enabled {
        return None;
      }
      var decoded, encoded := mailbox.decoded, mailbox.encoded;
      mailbox := mailbox.(decoded := None, encoded := None);
      completion := None;
      if encoded.Some? && requested == Some(encoded.value.job.key) {
        if encoded.value.ok {
          displayed := Some(encoded.value.job);
          ready := true;
        }
        completion := Some(encoded.value.ok);
      }
      if decoded.Some? && decoded.value.job.generation == generation {
        if decoded.value.ok {
          image := Some(decoded.value.job);
          requested := None;
        }
        completion := Some(decoded.value.ok);
      }
    }

    method Render(width: nat, height: nat, scaled: bool) returns (shown: Option<EncodeJob>)
      modifies this
      ensures View() == old(Woken(Rendered(View(), width, height, scaled)))
      ensures shown == if width == 0 || height == 0 || !enabled then None else displayed
    {
      if width == 0 || height == 0 {
        return None;
      }
      if !enabled {
        return None;
      }
      if image.Some? {
        var key := EncodeKey(image.value.generation, width, height, scaled);
        if requested != Some(key) {
          mailbox := mailbox.(encode := Some(EncodeJob(key, image.value.frame)));
          requested := Some(key);
          token := true;
        }
      }
      return displayed;
    }
  }

  // ---------------------------------------------------------------- runs

  /**
    A state with the generation at which its source was selected and the last frame handed to the
    image thread since then.
   */
  datatype Tracked = Tracked(m: MediaState, since: nat, last: Option<DecodeJob>)

  datatype Event =
    | Configure(on: bool)
    | SetSource(source: FrameSource)
    | Pause(on: bool)
    | CheckDue(visible: bool, source: FrameSource, now: nat)
    | Submit(frame: Frame)
    | Wake
    | Poll
    | Render(width: nat, height: nat, scaled: bool)
    | Thread

  function SourceSelected(t: Tracked, source: FrameSource): Tracked {
    if t.m.source == Some(source) then t else Tracked(SourceSet(t.m, source), t.m.generation + 1, None)
  }

  /** The frame timer and the pause say when frames are asked for, nothing about those that arrive. */
  function Next(t: Tracked, codec: Codec, e: Event): Tracked {
    var m := t.m;
    if m.waking && e != Wake && e != Thread then t
    else match e
      case Configure(on) => Tracked(Configured(m, on), m.generation + 1, None)
      case SetSource(source) => SourceSelected(t, source)
      case Pause(on) => t.(m := m.(paused := on))
      case CheckDue(visible, source, now) =>
        if !visible || m.paused || !m.enabled then t
        else SourceSelected(t, source).(m := ShouldRequest(m, visible, source, now).0)
      case Submit(frame) =>
        if !Accepts(m, frame) then t
        else Tracked(Submitted(m, frame), if m.source.None? then m.generation + 1 else t.since,
                     if m.enabled then Some(DecodeJob(m.generation + 1, frame)) else None)
      case Wake => t.(m := Woken(m))
      case Poll => t.(m := Polled(m))
      case Render(width, height, scaled) => t.(m := Rendered(m, width, height, scaled))
      case Thread => t.(m := ThreadStep(m, codec))
  }

  function RunEvents(codec: Codec, events: seq<Event>): Tracked {
    if events == [] then Tracked(Initial, 0, None)
    else Next(RunEvents(codec, events[..|events| - 1]), codec, events[|events| - 1])
  }

  // ---------------------------------------------------------------- invariants

  function Origin(e: EncodeJob): DecodeJob {
    DecodeJob(e.key.generation, e.frame)
  }

  /** What the worth of finished work depends on. */
  datatype Basis = Basis(generation: nat, since: nat, source: Option<FrameSource>, image: Option<DecodeJob>, last: Option<DecodeJob>)

  function BasisOf(t: Tracked): Basis {
    Basis(t.m.generation, t.since, t.m.source, t.m.image, t.last)
  }

  /** Work done since the source was selected is about that source. */
  ghost predicate Fits(b: Basis, job: DecodeJob) {
    job.generation <= b.generation && (job.generation >= b.since ==> b.source == Some(job.frame.source))
  }

  ghost predicate DecodeFits(b: Basis, job: DecodeJob) {
    Fits(b, job) && (job.generation == b.generation ==> b.last == Some(job))
  }

  /** An encode job is for the current image or an earlier one. */
  ghost predicate EncodeFits(b: Basis, e: EncodeJob) {
    && Fits(b, Origin(e))
    && match b.image
       case Some(image) => e.key.generation <= image.generation && (e.key.generation == image.generation ==> e.frame == image.frame)
       case None => e.key.generation < b.generation
  }

  ghost predicate BoxFits(b: Basis, box: Mailbox) {
    && (box.decode.Some? ==> box.decode == b.last)
    && (box.decoded.Some? ==> DecodeFits(b, box.decoded.value.job))
    && (box.encode.Some? ==> EncodeFits(b, box.encode.value) && box.encode.value.key.generation >= b.since)
    && (box.encoded.Some? ==> EncodeFits(b, box.encoded.value.job))
  }

  ghost predicate ThreadFits(b: Basis, thread: Activity) {
    && (thread.Decoding? ==> DecodeFits(b, thread.decodeJob))
    && (thread.Encoding? ==> EncodeFits(b, thread.encodeJob))
  }

  ghost predicate SlotsFit(t: Tracked) {
    BasisFits(BasisOf(t)) && BoxFits(BasisOf(t), t.m.mailbox) && ThreadFits(BasisOf(t), t.m.thread)
  }

  ghost predicate BasisFits(b: Basis) {
    && b.since <= b.generation
    && (b.last.Some? ==> b.last.value.generation == b.generation && b.source == Some(b.last.value.frame.source))
    && (b.image.Some? ==> DecodeFits(b, b.image.value) && b.image.value.generation >= b.since)
  }

  ghost predicate ShownFits(b: Basis, requested: Option<EncodeKey>, displayed: Option<EncodeJob>) {
    && (requested.Some? ==> b.image.Some? && requested.value.generation == b.image.value.generation)
    && (displayed.Some? ==> b.image.Some? && EncodeFits(b, displayed.value) && displayed.value.key.generation >= b.since)
  }

  ghost predicate ImagesFit(t: Tracked) {
    var m := t.m;
    && ShownFits(BasisOf(t), m.requested, m.displayed)
    && (t.last.Some? ==> m.enabled)
    && (m.ready <==> m.displayed.Some?)
    && (!m.enabled ==> m.image.None? && m.mailbox == Empty && !m.token && m.thread == Waiting && !m.waking)
  }

  /** A filled slot will be looked at: a token is there or about to be sent, or the thread has yet to come to the slot. */
  ghost predicate Awake(m: MediaState) {
    && (m.mailbox.decode.Some? ==> m.waking || m.token || m.thread == TakingDecode)
    && (m.mailbox.encode.Some? ==> m.waking || m.token || m.thread == TakingDecode || m.thread.Decoding? || m.thread == TakingEncode)
  }

  /** The last frame is waiting, being decoded, decoded, or the current image if it can be decoded. */
  ghost predicate DecodeProgress(t: Tracked, codec: Codec) {
    var m := t.m;
    t.last.Some? ==>
      var job := t.last.value;
      || m.mailbox.decode == Some(job)
      || (m.mailbox.decode.None? && m.thread == Decoding(job))
      || (m.mailbox.decode.None? && !m.thread.Decoding?
          && (m.mailbox.decoded == Some(Decoded(job, codec.decodes(job.frame))) || (codec.decodes(job.frame) ==> m.image == Some(job))))
  }

  /** The requested picture is waiting, being encoded, encoded, or displayed if it can be encoded. */
  ghost predicate EncodeProgress(t: Tracked, codec: Codec) {
    var m := t.m;
    m.requested.Some? && m.image.Some? ==>
      var e := EncodeJob(m.requested.value, m.image.value.frame);
      || m.mailbox.encode == Some(e)
      || (m.mailbox.encode.None? && m.thread == Encoding(e))
      || (m.mailbox.encode.None? && !m.thread.Encoding?
          && (m.mailbox.encoded == Some(Encoded(e, codec.encodes(e))) || (codec.encodes(e) ==> m.displayed == Some(e))))
  }

  ghost predicate Invariant(t: Tracked, codec: Codec) {
    SlotsFit(t) && ImagesFit(t) && Awake(t.m) && DecodeProgress(t, codec) && EncodeProgress(t, codec)
  }

  lemma ThreadKeepsSlots(t: Tracked, codec: Codec)
    requires SlotsFit(t)
    ensures SlotsFit(t.(m := ThreadStep(t.m, codec)))
  {
    hide BasisFits, EncodeFits, DecodeFits;
    var t' := t.(m := ThreadStep(t.m, codec));
    assert BasisOf(t') == BasisOf(t) by { OnlySlotsAndThread(t.m, codec); }
    if t.m.mailbox.decode.Some? {
      LastFits(BasisOf(t));
    }
  }

  lemma LastFits(b: Basis)
    requires BasisFits(b) && b.last.Some?
    ensures DecodeFits(b, b.last.value)
  {
  }

  /** A newly decoded image is the last frame handed over. */
  lemma NewImageFits(b: Basis, job: DecodeJob)
    requires BasisFits(b) && DecodeFits(b, job) && job.generation == b.generation
    ensures BasisFits(b.(image := Some(job)))
    ensures forall e :: EncodeFits(b, e) ==> EncodeFits(b.(image := Some(job)), e)
    ensures forall j :: DecodeFits(b, j) <==> DecodeFits(b.(image := Some(job)), j)
  {
  }

  lemma EncodedKeeps(t: Tracked)
    requires SlotsFit(t) && ImagesFit(t) && t.m.enabled
    ensures SlotsFit(t.(m := EncodedTaken(t.m))) && ImagesFit(t.(m := EncodedTaken(t.m)))
  {
    hide EncodeFits, BasisFits, DecodeFits;
    var m, b := t.m, BasisOf(t);
    if m.mailbox.encoded.Some? && m.requested == Some(m.mailbox.encoded.value.job.key) {
      RequestedFits(b, m.mailbox.encoded.value.job);
    }
    assert BasisOf(t.(m := EncodedTaken(m))) == b;
  }

  lemma DecodedKeeps(t: Tracked)
    requires SlotsFit(t) && ImagesFit(t) && t.m.enabled
    ensures SlotsFit(t.(m := DecodedTaken(t.m))) && ImagesFit(t.(m := DecodedTaken(t.m)))
  {
    hide EncodeFits, BasisFits, DecodeFits;
    var m, b := t.m, BasisOf(t);
    var t' := t.(m := DecodedTaken(m));
    if m.mailbox.decoded.Some? && m.mailbox.decoded.value.job.generation == m.generation && m.mailbox.decoded.value.ok {
      NewImageFits(b, m.mailbox.decoded.value.job);
      assert BasisOf(t') == b.(image := Some(m.mailbox.decoded.value.job));
    } else {
      assert BasisOf(t') == b;
    }
  }

  lemma PollKeeps(t: Tracked)
    requires SlotsFit(t) && ImagesFit(t)
    ensures SlotsFit(t.(m := Polled(t.m))) && ImagesFit(t.(m := Polled(t.m)))
  {
    hide SlotsFit, ImagesFit, DecodedTaken;
    if t.m.enabled {
      EncodedKeeps(t);
      assert EncodedTaken(t.m).enabled;
      DecodedKeeps(t.(m := EncodedTaken(t.m)));
    }
  }

  /** A picture of the current image was made since the source was selected. */
  lemma RequestedFits(b: Basis, e: EncodeJob)
    requires BasisFits(b) && EncodeFits(b, e) && b.image.Some? && e.key.generation == b.image.value.generation
    ensures e.key.generation >= b.since
  {
  }

  /** A new generation leaves all earlier work behind. */
  lemma NewGenerationFits(b: Basis, b': Basis)
    requires BasisFits(b) && b'.generation == b.generation + 1 && b'.image == b.image
    requires b'.since == b.since && b'.source == b.source
    ensures forall e :: EncodeFits(b, e) ==> EncodeFits(b', e)
    ensures forall j :: DecodeFits(b, j) ==> DecodeFits(b', j) && j.generation < b'.generation
  {
  }

  lemma NewSourceFits(b: Basis, b': Basis)
    requires BasisFits(b) && b'.generation == b.generation + 1 && b'.since == b'.generation && b'.image.None?
    ensures forall e :: EncodeFits(b, e) ==> EncodeFits(b', e)
    ensures forall j :: DecodeFits(b, j) ==> DecodeFits(b', j)
  {
  }

  lemma SubmitKeeps(t: Tracked, codec: Codec, frame: Frame)
    requires SlotsFit(t) && ImagesFit(t) && !t.m.waking
    ensures SlotsFit(Next(t, codec, Event.Submit(frame))) && ImagesFit(Next(t, codec, Event.Submit(frame)))
  {
    var b, b' := BasisOf(t), BasisOf(Next(t, codec, Event.Submit(frame)));
    if Accepts(t.m, frame) {
      if t.m.source.Some? {
        NewGenerationFits(b, b');
      } else {
        NewSourceFits(b, b');
      }
      hide EncodeFits;
    }
  }

  lemma SourceKeeps(t: Tracked, source: FrameSource)
    requires SlotsFit(t) && ImagesFit(t) && !t.m.waking
    ensures SlotsFit(SourceSelected(t, source)) && ImagesFit(SourceSelected(t, source))
  {
    var b, b' := BasisOf(t), BasisOf(SourceSelected(t, source));
    if t.m.source != Some(source) {
      NewSourceFits(b, b');
      hide EncodeFits;
    }
  }

  /** Neither the pause nor the frame timer touches the slots. */
  lemma TimerKeeps(t: Tracked, paused: bool, lastRequest: Option<nat>)
    requires SlotsFit(t) && ImagesFit(t)
    ensures var u := t.(m := t.m.(paused := paused, lastRequest := lastRequest));
            SlotsFit(u) && ImagesFit(u)
  {
    var u := t.(m := t.m.(paused := paused, lastRequest := lastRequest));
    assert BasisOf(u) == BasisOf(t);
    hide BasisFits, BoxFits, ThreadFits, ShownFits;
  }

  lemma DueKeeps(t: Tracked, codec: Codec, visible: bool, source: FrameSource, now: nat)
    requires SlotsFit(t) && ImagesFit(t) && !t.m.waking
    ensures var u := Next(t, codec, CheckDue(visible, source, now));
            SlotsFit(u) && ImagesFit(u)
  {
    hide SlotsFit, ImagesFit;
    SourceKeeps(t, source);
    var s, u := SourceSelected(t, source), Next(t, codec, CheckDue(visible, source, now));
    TimerKeeps(s, s.m.paused, u.m.lastRequest);
  }

  lemma ThreadKeepsImages(t: Tracked, codec: Codec)
    requires ImagesFit(t)
    ensures ImagesFit(t.(m := ThreadStep(t.m, codec)))
  {
    hide ShownFits;
    OnlySlotsAndThread(t.m, codec);
    assert BasisOf(t.(m := ThreadStep(t.m, codec))) == BasisOf(t);
  }

  lemma RenderKeeps(t: Tracked, width: nat, height: nat, scaled: bool)
    requires SlotsFit(t) && ImagesFit(t)
    ensures SlotsFit(t.(m := Rendered(t.m, width, height, scaled))) && ImagesFit(t.(m := Rendered(t.m, width, height, scaled)))
  {
    assert BasisOf(t.(m := Rendered(t.m, width, height, scaled))) == BasisOf(t);
  }

  lemma ConfigureKeeps(t: Tracked, codec: Codec, on: bool)
    requires SlotsFit(t) && ImagesFit(t)
    ensures SlotsFit(Next(t, codec, Configure(on))) && ImagesFit(Next(t, codec, Configure(on)))
  {
  }

  lemma WakeKeeps(t: Tracked)
    requires SlotsFit(t) && ImagesFit(t)
    ensures SlotsFit(t.(m := Woken(t.m))) && ImagesFit(t.(m := Woken(t.m)))
  {
    assert BasisOf(t.(m := Woken(t.m))) == BasisOf(t);
    hide ShownFits, BoxFits, ThreadFits, BasisFits;
  }

  lemma NextKeepsFit(t: Tracked, codec: Codec, e: Event)
    requires SlotsFit(t) && ImagesFit(t)
    ensures SlotsFit(Next(t, codec, e)) && ImagesFit(Next(t, codec, e))
  {
    hide SlotsFit, ImagesFit;
    if t.m.waking && e != Wake && e != Thread {
      assert Next(t, codec, e) == t;
    } else {
      match e
      case Configure(on) => ConfigureKeeps(t, codec, on);
      case SetSource(source) => SourceKeeps(t, source);
      case Pause(on) => TimerKeeps(t, on, t.m.lastRequest);
      case CheckDue(visible, source, now) => DueKeeps(t, codec, visible, source, now);
      case Submit(frame) => SubmitKeeps(t, codec, frame);
      case Wake => WakeKeeps(t);
      case Poll => PollKeeps(t);
      case Render(width, height, scaled) => RenderKeeps(t, width, height, scaled);
      case Thread =>
        ThreadKeepsSlots(t, codec);
        ThreadKeepsImages(t, codec);
    }
  }

  lemma ThreadKeepsAwake(m: MediaState, codec: Codec)
    requires Awake(m)
    ensures Awake(ThreadStep(m, codec))
  {
  }

  /** No step of either thread leaves a filled slot that nobody will look at. */
  lemma NextKeepsAwake(t: Tracked, codec: Codec, e: Event)
    requires Invariant(t, codec)
    ensures Awake(Next(t, codec, e).m)
  {
    hide SlotsFit, ImagesFit, DecodeProgress, EncodeProgress, ThreadStep;
    match e
    case Thread => ThreadKeepsAwake(t.m, codec);
    case _ =>
  }

  lemma ThreadKeepsDecode(t: Tracked, codec: Codec)
    requires SlotsFit(t) && DecodeProgress(t, codec)
    ensures DecodeProgress(Next(t, codec, Thread), codec)
  {
    hide Fits, EncodeFits, BasisFits;
  }

  lemma OnlyDisplayed(m: MediaState)
    ensures var n := EncodedTaken(m);
            n == m.(mailbox := m.mailbox.(encoded := None), displayed := n.displayed, ready := n.ready)
  {
  }

  lemma PollKeepsDecode(t: Tracked, codec: Codec)
    requires SlotsFit(t) && ImagesFit(t) && DecodeProgress(t, codec)
    ensures DecodeProgress(Next(t, codec, Poll), codec)
  {
    hide EncodeFits, EncodeProgress, ShownFits, EncodedTaken, Fits, BasisFits, ThreadFits;
    OnlyDisplayed(t.m);
    assert t.m.mailbox.decoded.Some? ==> DecodeFits(BasisOf(t), t.m.mailbox.decoded.value.job);
    LastIsCurrent(t);
  }

  lemma LastIsCurrent(t: Tracked)
    requires SlotsFit(t)
    ensures t.last.Some? ==> t.last.value.generation == t.m.generation
  {
  }

  lemma NextKeepsDecode(t: Tracked, codec: Codec, e: Event)
    requires Invariant(t, codec)
    ensures DecodeProgress(Next(t, codec, e), codec)
  {
    hide SlotsFit, ImagesFit, Awake, EncodeProgress, ThreadStep, Polled;
    match e
    case Thread => ThreadKeepsDecode(t, codec);
    case Poll => PollKeepsDecode(t, codec);
    case _ =>
  }

  lemma ThreadKeepsEncode(t: Tracked, codec: Codec)
    requires EncodeProgress(t, codec)
    ensures EncodeProgress(Next(t, codec, Thread), codec)
  {
    OnlySlotsAndThread(t.m, codec);
    ThreadKeepsBoxes(t.m, codec);
    hide ThreadStep;
  }

  /** What a thread step does to the encode slots. */
  lemma ThreadKeepsBoxes(m: MediaState, codec: Codec)
    ensures !m.enabled ==> ThreadStep(m, codec) == m
    ensures var n := ThreadStep(m, codec);
            && (n.mailbox.encode == m.mailbox.encode || (n.mailbox.encode.None? && n.thread.Encoding? && m.mailbox.encode == Some(n.thread.encodeJob)))
            && (if m.enabled && m.thread.Encoding?
                then n.mailbox.encoded == Some(Encoded(m.thread.encodeJob, codec.encodes(m.thread.encodeJob)))
                else n.mailbox.encoded == m.mailbox.encoded)
            && (n.thread.Encoding? ==> n.thread == m.thread || m.mailbox.encode == Some(n.thread.encodeJob))
            && (m.thread.Encoding? && m.enabled ==> n.thread == Waiting && n.mailbox.encode == m.mailbox.encode)
  {
  }

  lemma EncodedKeepsEncode(t: Tracked, codec: Codec)
    requires SlotsFit(t) && ImagesFit(t) && EncodeProgress(t, codec) && t.m.enabled
    ensures EncodeProgress(t.(m := EncodedTaken(t.m)), codec)
  {
    hide DecodeFits, BasisFits, ThreadFits;
  }

  lemma DecodedKeepsEncode(t: Tracked, codec: Codec)
    requires EncodeProgress(t, codec) && t.m.enabled
    ensures EncodeProgress(t.(m := DecodedTaken(t.m)), codec)
  {
  }

  lemma PollKeepsEncode(t: Tracked, codec: Codec)
    requires SlotsFit(t) && ImagesFit(t) && EncodeProgress(t, codec)
    ensures EncodeProgress(Next(t, codec, Poll), codec)
  {
    hide SlotsFit, ImagesFit, EncodeProgress, DecodedTaken;
    if t.m.enabled {
      EncodedKeepsEncode(t, codec);
      assert EncodedTaken(t.m).enabled;
      DecodedKeepsEncode(t.(m := EncodedTaken(t.m)), codec);
    }
  }

  lemma NextKeepsEncode(t: Tracked, codec: Codec, e: Event)
    requires Invariant(t, codec)
    ensures EncodeProgress(Next(t, codec, e), codec)
  {
    hide SlotsFit, Awake, DecodeProgress, ThreadStep, Polled;
    match e
    case Thread => ThreadKeepsEncode(t, codec);
    case Poll => PollKeepsEncode(t, codec);
    case _ =>
  }

  lemma {:induction false} RunKeeps(codec: Codec, events: seq<Event>)
    ensures Invariant(RunEvents(codec, events), codec)
  {
    if events != [] {
      var t, e := RunEvents(codec, events[..|events| - 1]), events[|events| - 1];
      RunKeeps(codec, events[..|events| - 1]);
      NextKeepsFit(t, codec, e);
      NextKeepsAwake(t, codec, e);
      NextKeepsDecode(t, codec, e);
      NextKeepsEncode(t, codec, e);
      hide SlotsFit, ImagesFit, Awake, DecodeProgress, EncodeProgress, Next;
    }
  }

  // ---------------------------------------------------------------- safety

  /** In every interleaving the displayed picture shows the selected source, and no wakeup is lost between UI calls. */
  lemma DisplayedIsSelected(codec: Codec, events: seq<Event>)
    ensures var m := RunEvents(codec, events).m;
            && (m.displayed.Some? ==> m.source == Some(m.displayed.value.frame.source))
            && (m.ready <==> m.displayed.Some?)
            && (!m.waking && m.mailbox.decode.Some? ==> m.token || m.thread == TakingDecode)
            && (!m.waking && m.mailbox.encode.Some? ==>
                  m.token || m.thread == TakingDecode || m.thread.Decoding? || m.thread == TakingEncode)
  {
    RunKeeps(codec, events);
    hide RunEvents;
  }

  /**
    A poll reports something exactly when it finished the decoding of the latest frame or the requested
    picture, and a success shows; what it finds is taken out either way.
   */
  lemma CompletionIsSeen(m: MediaState)
    ensures var n, box := Polled(m), m.mailbox;
            var current := m.enabled && box.decoded.Some? && box.decoded.value.job.generation == m.generation;
            var wanted := m.enabled && box.encoded.Some? && m.requested == Some(box.encoded.value.job.key);
            && (Completion(m).Some? <==> current || wanted)
            && (current ==> Completion(m) == Some(box.decoded.value.ok))
            && (wanted && !current ==> Completion(m) == Some(box.encoded.value.ok))
            && n.image == (if current && box.decoded.value.ok then Some(box.decoded.value.job) else m.image)
            && n.displayed == (if wanted && box.encoded.value.ok then Some(box.encoded.value.job) else m.displayed)
            && (m.enabled ==> n.mailbox == Mailbox(box.decode, None, box.encode, None))
  {
  }

  /** Only a poll replaces the displayed picture, by the one requested of the current image. */
  lemma NextDisplayed(t: Tracked, codec: Codec, e: Event)
    requires SlotsFit(t) && ImagesFit(t)
    ensures var m, n := t.m, Next(t, codec, e).m;
            m.displayed.Some? && n.displayed.Some? ==>
              && n.source == m.source
              && m.displayed.value.key.generation <= n.displayed.value.key.generation
              && (m.displayed != n.displayed ==> e == Poll && m.requested == Some(n.displayed.value.key))
  {
    hide ThreadFits, BoxFits, ThreadStep;
    OnlySlotsAndThread(t.m, codec);
  }

  /** A step replaces the displayed picture only by one of the same or a later generation of the same source. */
  lemma DisplayedNeverGoesBack(codec: Codec, events: seq<Event>, e: Event)
    ensures var m, n := RunEvents(codec, events).m, Next(RunEvents(codec, events), codec, e).m;
            m.displayed.Some? && n.displayed.Some? ==>
              && n.source == m.source
              && m.displayed.value.key.generation <= n.displayed.value.key.generation
              && (m.displayed != n.displayed ==> e == Poll && m.requested == Some(n.displayed.value.key))
  {
    hide RunEvents, SlotsFit, ImagesFit, Next;
    RunKeeps(codec, events);
    NextDisplayed(RunEvents(codec, events), codec, e);
  }

  // ---------------------------------------------------------------- the frame timer

  /** Event `k` asks for a frame at time `now`. */
  ghost predicate AsksAt(codec: Codec, events: seq<Event>, k: nat, now: nat)
    requires k < |events|
  {
    var m := RunEvents(codec, events[..k]).m;
    && events[k].CheckDue? && events[k].now == now && !m.waking
    && ShouldRequest(m, events[k].visible, events[k].source, now).1
  }

  /** The last frame was asked for at `now` or later. */
  ghost predicate AskedSince(m: MediaState, now: nat) {
    m.lastRequest.Some? && m.lastRequest.value >= now
  }

  /**
    A frame is asked for exactly when the view is visible, enabled and not paused, and its source was
    just selected, was not asked for yet, or was asked for the interval ago; only asking restarts the interval.
   */
  lemma DueExactly(m: MediaState, visible: bool, source: FrameSource, now: nat)
    ensures var (n, due) := ShouldRequest(m, visible, source, now);
            && (due <==> visible && m.enabled && !m.paused
                         && (m.source != Some(source) || m.lastRequest.None? || now - m.lastRequest.value >= 500))
            && (due ==> n.lastRequest == Some(now) && n.source == Some(source))
            && (!due ==> n.lastRequest == m.lastRequest)
  {
  }

  /** While paused nothing is asked for; resuming keeps the interval. */
  lemma PauseStopsAsking(t: Tracked, codec: Codec, on: bool, visible: bool, source: FrameSource, now: nat)
    requires !t.m.waking
    ensures var u := Next(t, codec, Pause(on));
            && u.since == t.since && u.last == t.last && u.m.lastRequest == t.m.lastRequest && u.m.displayed == t.m.displayed
            && (on ==> ShouldRequest(u.m, visible, source, now) == (u.m, false))
            && (!on ==> ShouldRequest(u.m, visible, source, now).1 == ShouldRequest(t.m.(paused := false), visible, source, now).1)
  {
  }

  lemma NextKeepsTimer(t: Tracked, codec: Codec, e: Event, now: nat)
    requires t.since <= t.m.generation
    ensures var u := Next(t, codec, e);
            && t.since <= u.since <= u.m.generation
            && (u.since == t.since && AskedSince(t.m, now) ==> AskedSince(u.m, now) && u.m.source == t.m.source)
  {
    hide ThreadStep;
    match e
    case Thread => OnlySlotsAndThread(t.m, codec);
    case _ =>
  }

  lemma {:induction false} TimerKept(codec: Codec, events: seq<Event>, i: nat, k: nat, now: nat)
    requires i <= k <= |events| && AskedSince(RunEvents(codec, events[..i]).m, now)
    ensures var t, u := RunEvents(codec, events[..i]), RunEvents(codec, events[..k]);
            && t.since <= u.since && u.since <= u.m.generation
            && (u.since == t.since ==> AskedSince(u.m, now) && u.m.source == t.m.source)
  {
    hide Next, AskedSince, SlotsFit, ImagesFit, Awake, DecodeProgress, EncodeProgress;
    if i == k {
      SinceBounded(codec, events[..i]);
    } else {
      TimerKept(codec, events, i, k - 1, now);
      assert events[..k][..k - 1] == events[..k - 1];
      NextKeepsTimer(RunEvents(codec, events[..k - 1]), codec, events[k - 1], now);
    }
  }

  lemma SinceBounded(codec: Codec, events: seq<Event>)
    ensures RunEvents(codec, events).since <= RunEvents(codec, events).m.generation
  {
    RunKeeps(codec, events);
    hide RunEvents;
  }

  lemma AskingRecords(codec: Codec, events: seq<Event>, i: nat, now: nat)
    requires i < |events| && AsksAt(codec, events, i, now)
    ensures AskedSince(RunEvents(codec, events[..i + 1]).m, now)
    ensures RunEvents(codec, events[..i + 1]).m.source == Some(events[i].source)
  {
    assert events[..i + 1][..i] == events[..i];
    DueExactly(RunEvents(codec, events[..i]).m, events[i].visible, events[i].source, now);
  }

  lemma SinceGrows(codec: Codec, events: seq<Event>, k: nat)
    requires k < |events|
    ensures RunEvents(codec, events[..k]).since <= RunEvents(codec, events[..k + 1]).since
  {
    assert events[..k + 1][..k] == events[..k];
    hide Next;
    SinceBounded(codec, events[..k]);
    NextKeepsTimer(RunEvents(codec, events[..k]), codec, events[k], 0);
  }

  lemma SameSource(codec: Codec, events: seq<Event>, k: nat, now: nat)
    requires k < |events| && AsksAt(codec, events, k, now)
    requires RunEvents(codec, events[..k]).since == RunEvents(codec, events[..k + 1]).since
    ensures RunEvents(codec, events[..k]).m.source == Some(events[k].source)
  {
    assert events[..k + 1][..k] == events[..k];
    SinceBounded(codec, events[..k]);
  }

  /** Over every run, two frames asked for while one source stays selected are at least the interval apart. */
  lemma AsksAreSpaced(codec: Codec, events: seq<Event>, i: nat, k: nat, first: nat, second: nat)
    requires i < k < |events| && AsksAt(codec, events, i, first) && AsksAt(codec, events, k, second)
    requires RunEvents(codec, events[..i + 1]).since == RunEvents(codec, events[..k + 1]).since
    ensures second >= first + 500 && events[k].source == events[i].source
  {
    hide RunEvents, Next, ShouldRequest;
    AskingRecords(codec, events, i, first);
    AskingRecords(codec, events, k, second);
    TimerKept(codec, events, i + 1, k, first);
    SinceGrows(codec, events, k);
    SameSource(codec, events, k, second);
    DueExactly(RunEvents(codec, events[..k]).m, events[k].visible, events[k].source, second);
  }

  // ---------------------------------------------------------------- a quiet UI drains

  /**
    While nothing is submitted or selected, the UI polls and renders one area, and the thread runs. It
    may run between a slot being filled and the token being sent.
   */
  datatype QuietStep = QuietPoll | QuietRender | QuietWake | QuietThread

  function Quiet(t: Tracked, codec: Codec, q: QuietStep, width: nat, height: nat, scaled: bool): Tracked {
    match q
    case QuietPoll => Next(t, codec, Poll)
    case QuietRender => Next(t, codec, Render(width, height, scaled))
    case QuietWake => Next(t, codec, Wake)
    case QuietThread => Next(t, codec, Thread)
  }

  function BoxWeight(box: Mailbox): nat {
    Filled(box.decode, 10) + Filled(box.decoded, 9) + Filled(box.encode, 3) + Filled(box.encoded, 1)
  }

  function Filled<T>(slot: Option<T>, weight: nat): nat {
    if slot.Some? then weight else 0
  }

  function ThreadWeight(thread: Activity): nat {
    match thread
    case Waiting => 0
    case TakingDecode => 2
    case Decoding(_) => 11
    case TakingEncode => 1
    case Encoding(_) => 2
  }

  function ImageWeight(image: Option<DecodeJob>, requested: Option<EncodeKey>, width: nat, height: nat, scaled: bool): nat {
    if image.Some? && requested != Some(KeyFor(image.value, width, height, scaled)) then 8 else 0
  }

  function Weight(m: MediaState, width: nat, height: nat, scaled: bool): nat {
    BoxWeight(m.mailbox) + ThreadWeight(m.thread) + ImageWeight(m.image, m.requested, width, height, scaled)
    + (if m.token then 3 else 0) + (if m.waking then 4 else 0)
  }

  /** Every quiet step that changes anything uses up some of the weight. */
  lemma QuietStepsDrain(t: Tracked, codec: Codec, q: QuietStep, width: nat, height: nat, scaled: bool)
    requires Invariant(t, codec) && width > 0 && height > 0
    ensures var u := Quiet(t, codec, q, width, height, scaled);
            && Invariant(u, codec) && u.last == t.last && u.m.generation == t.m.generation
            && (u == t || Weight(u.m, width, height, scaled) < Weight(t.m, width, height, scaled))
  {
    hide Invariant, Weight, Polled, ThreadStep, Rendered, Woken;
    match q
    case QuietPoll =>
      NextKeeps(t, codec, Poll);
      PollDrains(t.m, width, height, scaled);
    case QuietThread =>
      NextKeeps(t, codec, Thread);
      ThreadDrains(t.m, codec, width, height, scaled);
    case QuietWake =>
      NextKeeps(t, codec, Wake);
      WakeDrains(t.m, width, height, scaled);
    case QuietRender =>
      NextKeeps(t, codec, Render(width, height, scaled));
      if !t.m.waking {
        RenderDrains(t.m, width, height, scaled);
      }
  }

  lemma WakeDrains(m: MediaState, width: nat, height: nat, scaled: bool)
    ensures Woken(m) == m || Weight(Woken(m), width, height, scaled) < Weight(m, width, height, scaled)
    ensures Woken(m).generation == m.generation
  {
    hide BoxWeight, ThreadWeight, ImageWeight;
  }

  lemma EncodedDrains(m: MediaState, width: nat, height: nat, scaled: bool)
    ensures EncodedTaken(m) == m || Weight(EncodedTaken(m), width, height, scaled) < Weight(m, width, height, scaled)
    ensures EncodedTaken(m).generation == m.generation
  {
    hide ThreadWeight, ImageWeight;
  }

  lemma DecodedDrains(m: MediaState, width: nat, height: nat, scaled: bool)
    ensures DecodedTaken(m) == m || Weight(DecodedTaken(m), width, height, scaled) < Weight(m, width, height, scaled)
    ensures DecodedTaken(m).generation == m.generation
  {
    hide ThreadWeight;
  }

  lemma PollDrains(m: MediaState, width: nat, height: nat, scaled: bool)
    ensures Polled(m) == m || Weight(Polled(m), width, height, scaled) < Weight(m, width, height, scaled)
    ensures Polled(m).generation == m.generation
  {
    EncodedDrains(m, width, height, scaled);
    DecodedDrains(EncodedTaken(m), width, height, scaled);
    hide Weight, EncodedTaken, DecodedTaken;
  }

  lemma ThreadDrains(m: MediaState, codec: Codec, width: nat, height: nat, scaled: bool)
    ensures ThreadStep(m, codec) == m
         || Weight(ThreadStep(m, codec), width, height, scaled) < Weight(m, width, height, scaled)
    ensures ThreadStep(m, codec).generation == m.generation
  {
    var n := ThreadStep(m, codec);
    OnlySlotsAndThread(m, codec);
    ThreadUsesUp(m, codec);
    hide BoxWeight, ThreadWeight, ImageWeight, ThreadStep;
  }

  lemma OnlySlotsAndThread(m: MediaState, codec: Codec)
    ensures var n := ThreadStep(m, codec);
            n == m.(mailbox := n.mailbox, thread := n.thread, token := n.token)
  {
  }

  lemma ThreadUsesUp(m: MediaState, codec: Codec)
    ensures var n := ThreadStep(m, codec);
            n == m || BoxWeight(n.mailbox) + ThreadWeight(n.thread) + (if n.token then 3 else 0)
                      < BoxWeight(m.mailbox) + ThreadWeight(m.thread) + (if m.token then 3 else 0)
  {
    match m.thread
    case Waiting =>
    case TakingDecode =>
    case Decoding(_) =>
    case TakingEncode =>
    case Encoding(_) =>
  }

  lemma RenderDrains(m: MediaState, width: nat, height: nat, scaled: bool)
    requires !m.waking
    ensures var n := Rendered(m, width, height, scaled);
            n.generation == m.generation && (n == m || Weight(n, width, height, scaled) < Weight(m, width, height, scaled))
  {
  }

  lemma NextKeeps(t: Tracked, codec: Codec, e: Event)
    requires Invariant(t, codec)
    ensures Invariant(Next(t, codec, e), codec)
  {
    NextKeepsFit(t, codec, e);
    NextKeepsAwake(t, codec, e);
    NextKeepsDecode(t, codec, e);
    NextKeepsEncode(t, codec, e);
    hide SlotsFit, ImagesFit, Awake, DecodeProgress, EncodeProgress, Next;
  }

  /** When no quiet step changes anything any more, the last submitted frame is displayed at the rendered size, unless a codec refused it. */
  lemma DrainedShowsLatest(t: Tracked, codec: Codec, width: nat, height: nat, scaled: bool)
    requires Invariant(t, codec) && width > 0 && height > 0
    requires forall q: QuietStep :: Quiet(t, codec, q, width, height, scaled) == t
    ensures t.m.mailbox == Empty && t.m.thread == Waiting && !t.m.token && !t.m.waking
    ensures t.last.Some? ==>
              var picture := EncodeJob(EncodeKey(t.last.value.generation, width, height, scaled), t.last.value.frame);
              codec.decodes(t.last.value.frame) && codec.encodes(picture) ==> t.m.displayed == Some(picture)
  {
    assert Quiet(t, codec, QuietWake, width, height, scaled) == t;
    assert !t.m.waking;
    assert Quiet(t, codec, QuietThread, width, height, scaled) == t;
    assert Quiet(t, codec, QuietPoll, width, height, scaled) == t;
    assert Quiet(t, codec, QuietRender, width, height, scaled) == t;
    if t.m.enabled {
      assert t.m.thread == Waiting && !t.m.token;
      assert t.m.mailbox.decode.None? && t.m.mailbox.encode.None?;
      assert t.m.mailbox.decoded.None? && t.m.mailbox.encoded.None?;
    }
  }

  function QuietRun(t: Tracked, codec: Codec, steps: seq<QuietStep>, width: nat, height: nat, scaled: bool): Tracked {
    if steps == [] then t
    else Quiet(QuietRun(t, codec, steps[..|steps| - 1], width, height, scaled), codec, steps[|steps| - 1], width, height, scaled)
  }

  /** The number of steps of a quiet run that change something. */
  function Changes(t: Tracked, codec: Codec, steps: seq<QuietStep>, width: nat, height: nat, scaled: bool): nat {
    if steps == [] then 0
    else
      var before := QuietRun(t, codec, steps[..|steps| - 1], width, height, scaled);
      Changes(t, codec, steps[..|steps| - 1], width, height, scaled)
      + if Quiet(before, codec, steps[|steps| - 1], width, height, scaled) == before then 0 else 1
  }

  /** However a quiet UI and the image thread are interleaved, at most 49 steps change anything. */
  lemma {:induction false} QuietRunsEnd(t: Tracked, codec: Codec, steps: seq<QuietStep>, width: nat, height: nat, scaled: bool)
    requires Invariant(t, codec) && width > 0 && height > 0
    ensures var u := QuietRun(t, codec, steps, width, height, scaled);
            && Invariant(u, codec) && u.last == t.last
            && Changes(t, codec, steps, width, height, scaled) + Weight(u.m, width, height, scaled)
            <= Weight(t.m, width, height, scaled) <= 49
  {
    hide Invariant, Weight, Quiet;
    if steps == [] {
      WeightBound(t.m, width, height, scaled);
    } else {
      var init := steps[..|steps| - 1];
      QuietRunsEnd(t, codec, init, width, height, scaled);
      QuietStepsDrain(QuietRun(t, codec, init, width, height, scaled), codec, steps[|steps| - 1], width, height, scaled);
    }
  }

  lemma WeightBound(m: MediaState, width: nat, height: nat, scaled: bool)
    ensures Weight(m, width, height, scaled) <= 49
  {
  }

  /** One poll, one render with its wake, and one thread step. */
  function Round(t: Tracked, codec: Codec, width: nat, height: nat, scaled: bool): Tracked {
    QuietRun(t, codec, [QuietPoll, QuietRender, QuietWake, QuietThread], width, height, scaled)
  }

  function Rounds(t: Tracked, codec: Codec, n: nat, width: nat, height: nat, scaled: bool): Tracked
    decreases n
  {
    if n == 0 then t else Rounds(Round(t, codec, width, height, scaled), codec, n - 1, width, height, scaled)
  }

  lemma QuietRunAdds(t: Tracked, codec: Codec, steps: seq<QuietStep>, q: QuietStep, width: nat, height: nat, scaled: bool)
    ensures QuietRun(t, codec, steps + [q], width, height, scaled)
         == Quiet(QuietRun(t, codec, steps, width, height, scaled), codec, q, width, height, scaled)
  {
    assert (steps + [q])[..|steps|] == steps;
    hide Quiet;
  }

  lemma RoundSteps(t: Tracked, codec: Codec, width: nat, height: nat, scaled: bool)
    ensures var a := Quiet(t, codec, QuietPoll, width, height, scaled);
            var b := Quiet(a, codec, QuietRender, width, height, scaled);
            var c := Quiet(b, codec, QuietWake, width, height, scaled);
            Round(t, codec, width, height, scaled) == Quiet(c, codec, QuietThread, width, height, scaled)
  {
    hide Quiet;
    assert QuietRun(t, codec, [], width, height, scaled) == t;
    hide QuietRun;
    QuietRunAdds(t, codec, [], QuietPoll, width, height, scaled);
    QuietRunAdds(t, codec, [QuietPoll], QuietRender, width, height, scaled);
    QuietRunAdds(t, codec, [QuietPoll, QuietRender], QuietWake, width, height, scaled);
    QuietRunAdds(t, codec, [QuietPoll, QuietRender, QuietWake], QuietThread, width, height, scaled);
    assert [] + [QuietPoll] == [QuietPoll] && [QuietPoll] + [QuietRender] == [QuietPoll, QuietRender];
    assert [QuietPoll, QuietRender] + [QuietWake] == [QuietPoll, QuietRender, QuietWake];
    assert [QuietPoll, QuietRender, QuietWake] + [QuietThread] == [QuietPoll, QuietRender, QuietWake, QuietThread];
  }

  /** A round either changes nothing because nothing is left to do, or uses up weight. */
  lemma RoundDrains(t: Tracked, codec: Codec, width: nat, height: nat, scaled: bool)
    requires Invariant(t, codec) && width > 0 && height > 0
    ensures var u := Round(t, codec, width, height, scaled);
            && Invariant(u, codec) && u.last == t.last
            && ((u == t && forall q: QuietStep :: Quiet(t, codec, q, width, height, scaled) == t)
                || Weight(u.m, width, height, scaled) < Weight(t.m, width, height, scaled))
  {
    hide Invariant, Weight, Quiet, QuietRun;
    RoundSteps(t, codec, width, height, scaled);
    var a := Quiet(t, codec, QuietPoll, width, height, scaled);
    var b := Quiet(a, codec, QuietRender, width, height, scaled);
    var c := Quiet(b, codec, QuietWake, width, height, scaled);
    QuietStepsDrain(t, codec, QuietPoll, width, height, scaled);
    QuietStepsDrain(a, codec, QuietRender, width, height, scaled);
    QuietStepsDrain(b, codec, QuietWake, width, height, scaled);
    QuietStepsDrain(c, codec, QuietThread, width, height, scaled);
    if a == t && b == t && c == t && Quiet(c, codec, QuietThread, width, height, scaled) == t {
      forall q: QuietStep
        ensures Quiet(t, codec, q, width, height, scaled) == t
      {
        match q case QuietPoll => case QuietRender => case QuietWake => case QuietThread =>
      }
    }
  }

  lemma {:induction false} RoundsDrain(t: Tracked, codec: Codec, n: nat, width: nat, height: nat, scaled: bool)
    requires Invariant(t, codec) && width > 0 && height > 0
    requires Weight(t.m, width, height, scaled) < n
    ensures var u := Rounds(t, codec, n, width, height, scaled);
            && Invariant(u, codec) && u.last == t.last
            && forall q: QuietStep :: Quiet(u, codec, q, width, height, scaled) == u
    decreases n
  {
    hide Invariant, Weight, Quiet, Round;
    var u := Round(t, codec, width, height, scaled);
    RoundDrains(t, codec, width, height, scaled);
    if u == t && forall q: QuietStep :: Quiet(t, codec, q, width, height, scaled) == t {
      SameAfterRounds(t, codec, n, width, height, scaled);
    } else {
      RoundsDrain(u, codec, n - 1, width, height, scaled);
    }
  }

  lemma {:induction false} SameAfterRounds(t: Tracked, codec: Codec, n: nat, width: nat, height: nat, scaled: bool)
    requires Round(t, codec, width, height, scaled) == t
    ensures Rounds(t, codec, n, width, height, scaled) == t
    decreases n
  {
    if n > 0 {
      SameAfterRounds(t, codec, n - 1, width, height, scaled);
    }
  }

  /**
    From every reachable state, 50 quiet rounds display the last submitted frame at the rendered
    size, unless the codec refuses it, and leave nothing to do.
   */
  lemma QuietUiShowsLatest(codec: Codec, events: seq<Event>, width: nat, height: nat, scaled: bool)
    requires width > 0 && height > 0
    ensures var t := RunEvents(codec, events); var u := Rounds(t, codec, 50, width, height, scaled);
            && u.m.mailbox == Empty && u.m.thread == Waiting && !u.m.token && !u.m.waking
            && (t.last.Some? ==>
                  var picture := EncodeJob(EncodeKey(t.last.value.generation, width, height, scaled), t.last.value.frame);
                  codec.decodes(t.last.value.frame) && codec.encodes(picture) ==> u.m.displayed == Some(picture))
  {
    var t := RunEvents(codec, events);
    RunKeeps(codec, events);
    WeightBound(t.m, width, height, scaled);
    hide Invariant, Weight, Quiet, Rounds, RunEvents;
    RoundsDrain(t, codec, 50, width, height, scaled);
    DrainedShowsLatest(Rounds(t, codec, 50, width, height, scaled), codec, width, height, scaled);
  }
}
