// Choosing the frames of a packet: control frames first, then STREAM frames of the active streams, round-robin.
module Framer {
  import opened Protocol
  import opened StreamFrames
  import Varint

  const MAX_PATH_RESPONSES := 256
  const MAX_CONTROL_FRAMES := 16384
  const MAX_STREAM_CONTROL_FRAME_SIZE := 25
  const MIN_STREAM_FRAME_SIZE := 128
  const MAX_EMPTY_FRAME := 18

  datatype Kind =
    | MaxData | MaxStreamData | MaxStreams | DataBlocked | StreamDataBlocked | StreamsBlocked | PathResponse | Other

  /** A control frame is told from others by its content; `size` is its length on the wire. */
  datatype ControlFrame = ControlFrame(kind: Kind, content: int, size: int)

  /** What a stream answers when it is asked for a STREAM frame or a control frame. */
  datatype StreamAnswer = StreamAnswer(frame: Option<StreamFrame>, blocked: Option<ControlFrame>, hasMore: bool)
  datatype ControlAnswer = ControlAnswer(frame: Option<ControlFrame>, hasMore: bool)

  /** The streams: what they answer depends on the stream, the size, and on everything that happened before. */
  type Streams = (int, int, int) -> StreamAnswer
  type ControlSources = (int, int) -> ControlAnswer

  /** A stream respects the size, except for a frame without data; its frames have a length field. */
  predicate Honest(a: StreamAnswer, maxBytes: int) {
    && (a.frame.Some? ==>
            a.frame.value.Writable() && a.frame.value.dataLenPresent
            && Length(a.frame.value) <= Max(maxBytes, MAX_EMPTY_FRAME))
    && (a.blocked.Some? ==> a.blocked.value.kind == StreamDataBlocked && 0 < a.blocked.value.size)
  }

  ghost predicate AllHonest(pop: Streams) {
    forall id, n, t :: Honest(pop(id, n, t), n)
  }

  predicate NotLarger(a: ControlAnswer, largest: int) {
    a.frame.Some? ==> 0 < a.frame.value.size <= largest
  }

  ghost predicate AllUpTo(control: ControlSources, largest: int) {
    forall id, t :: NotLarger(control(id, t), largest)
  }

  /** By how much a packet may become too long, when the streams have control frames up to this size. */
  function Excess(largest: int): int { Max(0, largest - (MAX_STREAM_CONTROL_FRAME_SIZE + 1)) }

  /** A stream, the size that it was offered, and its answer. */
  datatype Answered = Answered(id: int, size: int, answer: StreamAnswer)
  datatype Replied = Replied(id: int, answer: ControlAnswer)

  /** The answers of the streams to questions that were asked from time `t` on. */
  ghost predicate Asked(pop: Streams, t: int, answers: seq<Answered>) {
    forall i :: 0 <= i < |answers| ==> GivenAt(pop, t + i, answers[i])
  }

  predicate GivenAt(pop: Streams, t: int, a: Answered) {
    a.answer == pop(a.id, a.size, t)
  }

  lemma AskedNone(pop: Streams, t: int)
    ensures Asked(pop, t, [])
  {
  }

  lemma AskedOne(pop: Streams, t: int, answers: seq<Answered>, a: Answered)
    requires Asked(pop, t, answers) && GivenAt(pop, t + |answers|, a)
    ensures Asked(pop, t, answers + [a])
  {
  }

  ghost predicate AskedControl(control: ControlSources, t: int, replies: seq<Replied>) {
    forall i :: 0 <= i < |replies| ==> ControlGivenAt(control, t + i, replies[i])
  }

  predicate ControlGivenAt(control: ControlSources, t: int, a: Replied) {
    a.answer == control(a.id, t)
  }

  /** The streams that answered, and those that answered that they have no more. */
  ghost function WereAsked(answers: seq<Answered>): set<int> {
    set i | 0 <= i < |answers| :: answers[i].id
  }

  ghost function Finished(answers: seq<Answered>): set<int> {
    set i | 0 <= i < |answers| && !answers[i].answer.hasMore :: answers[i].id
  }

  ghost function HaveReplied(replies: seq<Replied>): set<int> {
    set i | 0 <= i < |replies| :: replies[i].id
  }

  ghost function HaveNoMore(replies: seq<Replied>): set<int> {
    set i | 0 <= i < |replies| && !replies[i].answer.hasMore :: replies[i].id
  }

  /** The streams that answered that they have more, in the order of their answers. */
  function Requeued(answers: seq<Answered>): seq<int> {
    if answers == [] then []
    else
      var a := answers[|answers| - 1];
      Requeued(answers[..|answers| - 1]) + if a.answer.hasMore then [a.id] else []
  }

  /** The frames in the answers. */
  function FramesOf(answers: seq<Answered>): seq<StreamFrame> {
    if answers == [] then []
    else
      var a := answers[|answers| - 1].answer;
      FramesOf(answers[..|answers| - 1]) + if a.frame.Some? then [a.frame.value] else []
  }

  function BlockedOf(answers: seq<Answered>): seq<ControlFrame> {
    if answers == [] then []
    else
      var a := answers[|answers| - 1].answer;
      BlockedOf(answers[..|answers| - 1]) + if a.blocked.Some? then [a.blocked.value] else []
  }

  function ControlOf(replies: seq<Replied>): seq<ControlFrame> {
    if replies == [] then []
    else
      var a := replies[|replies| - 1].answer;
      ControlOf(replies[..|replies| - 1]) + if a.frame.Some? then [a.frame.value] else []
  }

  lemma NextAnswer(answers: seq<Answered>, a: Answered)
    ensures FramesOf(answers + [a]) == FramesOf(answers) + if a.answer.frame.Some? then [a.answer.frame.value] else []
    ensures BlockedOf(answers + [a]) ==
            BlockedOf(answers) + if a.answer.blocked.Some? then [a.answer.blocked.value] else []
    ensures Requeued(answers + [a]) == Requeued(answers) + if a.answer.hasMore then [a.id] else []
    ensures WereAsked(answers + [a]) == WereAsked(answers) + {a.id}
    ensures Finished(answers + [a]) == Finished(answers) + if a.answer.hasMore then {} else {a.id}
  {
    var all := answers + [a];
    assert all[..|answers|] == answers && all[|answers|] == a;
    assert forall i :: 0 <= i < |answers| ==> all[i] == answers[i];
  }

  lemma NoAnswers()
    ensures FramesOf([]) == [] && BlockedOf([]) == [] && Requeued([]) == [] && WereAsked([]) == {} && Finished([]) == {}
  {
  }

  lemma FinishedWereAsked(answers: seq<Answered>)
    ensures Finished(answers) <= WereAsked(answers)
  {
  }

  lemma NextReply(replies: seq<Replied>, a: Replied)
    ensures ControlOf(replies + [a]) == ControlOf(replies) + if a.answer.frame.Some? then [a.answer.frame.value] else []
    ensures HaveReplied(replies + [a]) == HaveReplied(replies) + {a.id}
    ensures HaveNoMore(replies + [a]) == HaveNoMore(replies) + if a.answer.hasMore then {} else {a.id}
  {
    var all := replies + [a];
    assert all[..|replies|] == replies && all[|replies|] == a;
    assert forall i :: 0 <= i < |replies| ==> all[i] == replies[i];
  }

  lemma AskedNothing(control: ControlSources, t: int)
    ensures AskedControl(control, t, []) && OneByOne([])
  {
  }

  lemma AskedControlOne(control: ControlSources, t: int, replies: seq<Replied>, r: Replied)
    requires AskedControl(control, t, replies) && ControlGivenAt(control, t + |replies|, r)
    ensures AskedControl(control, t, replies + [r])
  {
  }

  lemma NoReplies()
    ensures ControlOf([]) == [] && HaveReplied([]) == {} && HaveNoMore([]) == {}
  {
  }

  /** The streams with control frames that have no more are gone, and only those that were there were asked. */
  ghost predicate Polled(before: set<int>, after: set<int>, replies: seq<Replied>) {
    HaveReplied(replies) <= before && after == before - HaveNoMore(replies) && OneByOne(replies)
  }

  /** A stream that gave a frame and has more is asked again. */
  predicate AsksAgain(r: Replied) { r.answer.frame.Some? && r.answer.hasMore }

  /** Each stream is asked again as long as it gives frames and has more, and then not any more. */
  ghost predicate OneByOne(replies: seq<Replied>) {
    && (forall i :: 0 <= i < |replies| - 1 && AsksAgain(replies[i]) ==> replies[i + 1].id == replies[i].id)
    && (forall i, j :: 0 <= i < j < |replies| && !AsksAgain(replies[i]) ==> replies[j].id != replies[i].id)
  }

  /** No stream would be asked again. */
  predicate Settled(replies: seq<Replied>) {
    replies == [] || !AsksAgain(replies[|replies| - 1])
  }

  /** All streams were asked, until they had no more frames. */
  ghost predicate AllAsked(before: set<int>, replies: seq<Replied>) {
    before == HaveReplied(replies) && Settled(replies)
  }

  lemma OneMoreReply(replies: seq<Replied>, r: Replied)
    requires OneByOne(replies)
    requires if Settled(replies) then r.id !in HaveReplied(replies) else r.id == replies[|replies| - 1].id
    ensures OneByOne(replies + [r])
  {
    forall i | 0 <= i < |replies| ensures replies[i].id in HaveReplied(replies) {
    }
  }

  /** The first `turns` streams of the queue had their turn. Those that were active were asked; those that have more
      are now at the end of the queue, and those that have no more are not active any longer. */
  ghost predicate Rotated(before: seq<int>, active: set<int>, turns: int, answers: seq<Answered>, after: seq<int>,
                          active': set<int>) {
    && 0 <= turns <= |before| && after == before[turns..] + Requeued(answers)
    && active' == active - Finished(answers)
    && (forall i :: 0 <= i < turns && before[i] in active ==> before[i] in WereAsked(answers))
  }

  lemma FirstInQueue(before: seq<int>, active: set<int>, turns: int, answers: seq<Answered>, after: seq<int>,
                     active': set<int>)
    requires Rotated(before, active, turns, answers, after, active') && turns < |before|
    ensures after != [] && after[0] == before[turns]
  {
  }

  lemma RotatedStep(before: seq<int>, active: set<int>, turns: int, answers: seq<Answered>, after: seq<int>,
                    active': set<int>, now: Answered)
    requires Rotated(before, active, turns, answers, after, active') && turns < |before| && now.id == after[0]
    ensures var asked := now.id in active';
            Rotated(before, active, turns + 1, if asked then answers + [now] else answers,
                    after[1..] + (if asked && now.answer.hasMore then [now.id] else []),
                    if !asked || now.answer.hasMore then active' else active' - {now.id})
  {
    hide Requeued, Finished, WereAsked, FramesOf, BlockedOf;
    NextAnswer(answers, now);
    FinishedWereAsked(answers);
    QueueStep(before, turns, Requeued(answers), after, if now.answer.hasMore then [now.id] else []);
    QueueStep(before, turns, Requeued(answers), after, []);
  }

  lemma QueueStep(before: seq<int>, turns: int, requeued: seq<int>, after: seq<int>, more: seq<int>)
    requires 0 <= turns < |before| && after == before[turns..] + requeued
    ensures after[0] == before[turns] && after[1..] + more == before[turns + 1..] + (requeued + more)
    ensures requeued + [] == requeued
  {
    assert before[turns..] == [before[turns]] + before[turns + 1..];
    assert after == [before[turns]] + (before[turns + 1..] + requeued);
    assert after[1..] == before[turns + 1..] + requeued;
  }

  lemma NotRotated(before: seq<int>, active: set<int>)
    ensures Rotated(before, active, 0, [], before, active)
  {
  }

  /** There is no room for another STREAM frame, or for the STREAM_DATA_BLOCKED frame that came up last and is now
      queued. */
  ghost predicate Full(room: int, answers: seq<Answered>, queued: seq<ControlFrame>) {
    || room < MIN_STREAM_FRAME_SIZE
    || (&& answers != [] && answers[|answers| - 1].answer.blocked.Some?
        && room < answers[|answers| - 1].answer.blocked.value.size
        && answers[|answers| - 1].answer.blocked.value in queued)
  }

  lemma StillFull(room: int, room': int, answers: seq<Answered>, queued: seq<ControlFrame>, queued': seq<ControlFrame>)
    requires Full(room, answers, queued) && room' <= room && queued <= queued'
    ensures Full(room', answers, queued')
  {
  }

  /** The length of the PATH_RESPONSE frame that a packet takes. */
  function PathLen(pathResponses: seq<ControlFrame>, maxLen: int): int {
    if |pathResponses| > 0 && pathResponses[0].size <= maxLen then pathResponses[0].size else 0
  }

  function ControlLen(frames: seq<ControlFrame>): int {
    if frames == [] then 0 else ControlLen(frames[..|frames| - 1]) + frames[|frames| - 1].size
  }

  predicate Sized(frames: seq<ControlFrame>) {
    forall i :: 0 <= i < |frames| ==> 0 < frames[i].size
  }

  /** What the PATH_RESPONSE frame and the control frames of the streams leave of a packet. */
  function ControlRoom(maxLen: int, pathResponses: seq<ControlFrame>, replies: seq<Replied>): int {
    maxLen - PathLen(pathResponses, maxLen) - ControlLen(ControlOf(replies))
  }

  /** The frames of a packet, if `kept` frames of the queue stay there: a PATH_RESPONSE frame, those of the streams,
      and those of the queue from its end on. */
  function FirstFrames(maxLen: int, pathResponses: seq<ControlFrame>, replies: seq<Replied>, queue: seq<ControlFrame>,
                       kept: int): seq<ControlFrame>
    requires 0 <= kept <= |queue|
  {
    (if PathLen(pathResponses, maxLen) > 0 then [pathResponses[0]] else []) + ControlOf(replies)
        + Reversed(queue[kept..])
  }

  /** Only `kept` frames of the queue are still there. They come before all that were queued since, and the last of
      them had no room in the packet. */
  ghost predicate Unqueued(maxLen: int, pathResponses: seq<ControlFrame>, replies: seq<Replied>,
                           queue: seq<ControlFrame>, kept: int, frames: seq<ControlFrame>, queue': seq<ControlFrame>) {
    && 0 <= kept <= |queue| && queue[..kept] <= queue'
    && FirstFrames(maxLen, pathResponses, replies, queue, kept) <= frames
    && (0 < kept ==>
          maxLen < ControlLen(FirstFrames(maxLen, pathResponses, replies, queue, kept)) + queue[kept - 1].size)
  }

  lemma Arranged(maxLen: int, pathResponses: seq<ControlFrame>, path: seq<ControlFrame>, replies: seq<Replied>,
                 fetched: seq<ControlFrame>, queue: seq<ControlFrame>, queue': seq<ControlFrame>,
                 taken: seq<ControlFrame>)
    requires path == if PathLen(pathResponses, maxLen) > 0 then [pathResponses[0]] else []
    requires fetched == ControlOf(replies) && queue' + Reversed(taken) == queue
    requires queue' != [] ==> maxLen - ControlLen(path + fetched) < ControlLen(taken) + queue'[|queue'| - 1].size
    ensures Unqueued(maxLen, pathResponses, replies, queue, |queue'|, path + fetched + taken, queue')
    ensures path + fetched + taken == FirstFrames(maxLen, pathResponses, replies, queue, |queue'|)
  {
    hide ControlLen, ControlOf, PathLen;
    ReversedTwice(taken);
    ControlLenConcat(path + fetched, taken);
    assert queue[|queue'|..] == Reversed(taken) && queue[..|queue'|] == queue';
  }

  lemma StillUnqueued(maxLen: int, pathResponses: seq<ControlFrame>, replies: seq<Replied>, queue: seq<ControlFrame>,
                      kept: int, frames: seq<ControlFrame>, queue': seq<ControlFrame>, frames': seq<ControlFrame>,
                      queue'': seq<ControlFrame>)
    requires Unqueued(maxLen, pathResponses, replies, queue, kept, frames, queue') && frames <= frames'
              && queue' <= queue''
    ensures Unqueued(maxLen, pathResponses, replies, queue, kept, frames', queue'')
  {
  }

  lemma SizedAdd(frames: seq<ControlFrame>, f: ControlFrame)
    requires Sized(frames) && 0 < f.size
    ensures Sized(frames + [f])
  {
  }

  function StreamLen(frames: seq<StreamFrame>): int
    requires forall i :: 0 <= i < |frames| ==> frames[i].Writable()
  {
    if frames == [] then 0 else StreamLen(frames[..|frames| - 1]) + Length(frames[|frames| - 1])
  }

  /** Frames about limits for data and streams. */
  predicate IsFlowControl(f: ControlFrame) {
    f.kind in {MaxData, MaxStreamData, MaxStreams, DataBlocked, StreamDataBlocked, StreamsBlocked}
  }

  /** The frames that survive a 0-RTT rejection: those that do not belong to flow control. */
  function Surviving(frames: seq<ControlFrame>): seq<ControlFrame> {
    if frames == [] then []
    else
      var last := frames[|frames| - 1];
      Surviving(frames[..|frames| - 1]) + if last.kind.PathResponse? || last.kind.Other? then [last] else []
  }

  class Framer {
    var activeStreams: set<int>
    var streamQueue: seq<int>
    var streamsWithControlFrames: set<int>
    var controlFrames: seq<ControlFrame>
    var pathResponses: seq<ControlFrame>
    var queuedTooManyControlFrames: bool
    /** Counts the questions that streams were asked. */
    var turn: int

    /** Every active stream is in the queue; it may be there twice, and streams that are not active may be there. */
    ghost predicate Valid()
      reads this
    {
      && (forall id :: id in activeStreams ==> id in streamQueue)
      && |pathResponses| <= MAX_PATH_RESPONSES
      && Sized(controlFrames) && Sized(pathResponses)
      && (forall i :: 0 <= i < |pathResponses| ==> pathResponses[i].kind == PathResponse)
    }

    constructor ()
      ensures Valid() && activeStreams == {} && streamQueue == [] && controlFrames == [] && pathResponses == []
      ensures streamsWithControlFrames == {} && turn == 0 && !queuedTooManyControlFrames
    {
      activeStreams, streamQueue, streamsWithControlFrames := {}, [], {};
      controlFrames, pathResponses, queuedTooManyControlFrames, turn := [], [], false, 0;
    }

    /** Without data there is no active stream and no queued frame. */
    method HasData() returns (r: bool)
      requires Valid()
      ensures !r ==> activeStreams == {} && streamsWithControlFrames == {} && controlFrames == [] && pathResponses == []
      ensures r ==> streamQueue != [] || streamsWithControlFrames != {} || controlFrames != [] || pathResponses != []
    {
      if activeStreams != {} {
        ghost var id := SomeMember(activeStreams);
        assert id in streamQueue;
      }
      r := |streamQueue| > 0 || |streamsWithControlFrames| > 0 || |controlFrames| > 0 || |pathResponses| > 0;
    }

    /** Queues a frame, unless the queue is full. */
    method QueueControlFrame(frame: ControlFrame)
      requires Valid() && 0 < frame.size
      modifies this`controlFrames, this`pathResponses, this`queuedTooManyControlFrames
      ensures Valid()
      ensures frame.kind == PathResponse ==>
                && controlFrames == old(controlFrames) && queuedTooManyControlFrames == old(queuedTooManyControlFrames)
                && pathResponses == if |old(pathResponses)| < MAX_PATH_RESPONSES then old(pathResponses) + [frame]
                    else old(pathResponses)
      ensures frame.kind != PathResponse ==>
                && pathResponses == old(pathResponses)
                && controlFrames == (if |old(controlFrames)| < MAX_CONTROL_FRAMES then old(controlFrames) + [frame]
                                     else old(controlFrames))
                && queuedTooManyControlFrames
                    == (old(queuedTooManyControlFrames) || |old(controlFrames)| >= MAX_CONTROL_FRAMES)
    {
      if frame.kind == PathResponse {
        if |pathResponses| >= MAX_PATH_RESPONSES {
          return;
        }
        pathResponses := pathResponses + [frame];
        return;
      }
      if |controlFrames| >= MAX_CONTROL_FRAMES {
        queuedTooManyControlFrames := true;
        return;
      }
      controlFrames := controlFrames + [frame];
    }

    method AddActiveStream(id: int)
      requires Valid()
      modifies this`activeStreams, this`streamQueue
      ensures Valid() && activeStreams == old(activeStreams) + {id}
      ensures streamQueue == if id in old(activeStreams) then old(streamQueue) else old(streamQueue) + [id]
    {
      if id !in activeStreams {
        streamQueue := streamQueue + [id];
        activeStreams := activeStreams + {id};
      }
    }

    method AddStreamWithControlFrames(id: int)
      requires Valid()
      modifies this`streamsWithControlFrames
      ensures Valid() && streamsWithControlFrames == old(streamsWithControlFrames) + {id}
    {
      streamsWithControlFrames := streamsWithControlFrames + {id};
    }

    /** The stream stays in the queue, where it will be skipped. */
    method RemoveActiveStream(id: int)
      requires Valid()
      modifies this`activeStreams
      ensures Valid() && activeStreams == old(activeStreams) - {id}
    {
      activeStreams := activeStreams - {id};
    }

    /** Asks the first stream of the queue, and lends it the bytes of its length field. If it has more data it goes to
        the end of the queue. */
    method GetNextStreamFrame(maxLen: int, pop: Streams) returns (a: StreamAnswer)
      requires Valid() && streamQueue != [] && AllHonest(pop) && MIN_STREAM_FRAME_SIZE <= maxLen <= Varint.MAX_2
      modifies this`activeStreams, this`streamQueue, this`turn
      ensures Valid() && Honest(a, maxLen + 2)
      ensures streamQueue == old(streamQueue)[1..] + if old(streamQueue)[0] in old(activeStreams) && a.hasMore
                then [old(streamQueue)[0]] else []
      ensures activeStreams == if a.hasMore then old(activeStreams) else old(activeStreams) - {old(streamQueue)[0]}
      ensures old(streamQueue)[0] in old(activeStreams) ==>
                turn == old(turn) + 1 && a == pop(old(streamQueue)[0], maxLen + Varint.Len(maxLen), old(turn))
      ensures old(streamQueue)[0] !in old(activeStreams) ==> turn == old(turn) && a == StreamAnswer(None, None, false)
    {
      var id := streamQueue[0];
      assert streamQueue == [id] + streamQueue[1..];
      streamQueue := streamQueue[1..];
      if id !in activeStreams {
        return StreamAnswer(None, None, false);
      }
      var lent := maxLen + Varint.Len(maxLen);
      a := pop(id, lent, turn);
      turn := turn + 1;
      if a.hasMore {
        streamQueue := streamQueue + [id];
      } else {
        activeStreams := activeStreams - {id};
      }
    }

    /** Takes at most one PATH_RESPONSE frame. */
    method TakePathResponse(maxLen: int) returns (frames: seq<ControlFrame>)
      requires Valid() && 0 <= maxLen
      modifies this`pathResponses
      ensures Valid() && frames + pathResponses == old(pathResponses) && |frames| <= 1
                && 0 <= ControlLen(frames) <= maxLen
      ensures |frames| == 1 <==> |old(pathResponses)| > 0 && old(pathResponses)[0].size <= maxLen
      ensures frames == if PathLen(old(pathResponses), maxLen) > 0 then [old(pathResponses)[0]] else []
      ensures ControlLen(frames) == PathLen(old(pathResponses), maxLen)
    {
      frames := [];
      if |pathResponses| > 0 {
        var frame := pathResponses[0];
        if frame.size <= maxLen {
          frames := [frame];
          pathResponses := pathResponses[1..];
        }
      }
    }

    /** Asks the streams for their control frames, as long as there is room for the largest one. Exactly the streams
        that have no more are forgotten. */
    method FetchStreamControl(maxLen: int, control: ControlSources, ghost largest: int)
        returns (fetched: seq<ControlFrame>, ghost replies: seq<Replied>)
      requires Valid() && 0 <= maxLen && AllUpTo(control, largest)
      modifies this`streamsWithControlFrames, this`turn
      ensures Valid() && 0 <= ControlLen(fetched) <= maxLen + Excess(largest)
      ensures fetched == ControlOf(replies) && AskedControl(control, old(turn), replies)
                && turn == old(turn) + |replies|
      ensures Polled(old(streamsWithControlFrames), streamsWithControlFrames, replies)
      ensures || AllAsked(old(streamsWithControlFrames), replies)
              || maxLen - ControlLen(fetched) <= MAX_STREAM_CONTROL_FRAME_SIZE
    {
      hide ControlOf, HaveReplied, HaveNoMore, OneByOne, AskedControl, AllUpTo;
      fetched, replies := [], [];
      NoReplies();
      AskedNothing(control, turn);
      var ids := streamsWithControlFrames;
      var length := 0;
      while ids != {} && maxLen - length > MAX_STREAM_CONTROL_FRAME_SIZE
        invariant 0 <= length == ControlLen(fetched) <= maxLen + Excess(largest)
        invariant streamsWithControlFrames == old(streamsWithControlFrames) - HaveNoMore(replies)
        invariant fetched == ControlOf(replies) && AskedControl(control, old(turn), replies)
        invariant turn == old(turn) + |replies| && OneByOne(replies)
        invariant old(streamsWithControlFrames) == HaveReplied(replies) + ids && ids !! HaveReplied(replies)
        invariant Settled(replies) || maxLen - length <= MAX_STREAM_CONTROL_FRAME_SIZE
        decreases |ids|
      {
        ghost var some := SomeMember(ids);
        var id :| id in ids;
        ids := ids - {id};
        fetched, length, replies := AskStream(id, maxLen, control, largest, fetched, length,
                                              old(streamsWithControlFrames), old(turn), replies);
      }
    }

    /** Asks a stream for control frames as long as it has more and there is room. */
    method AskStream(id: int, maxLen: int, control: ControlSources, ghost largest: int, fetched: seq<ControlFrame>,
                     length: int, ghost before: set<int>, ghost start: int, ghost replies: seq<Replied>)
        returns (fetched': seq<ControlFrame>, length': int, ghost replies': seq<Replied>)
      requires AllUpTo(control, largest)
      requires 0 <= length == ControlLen(fetched) && MAX_STREAM_CONTROL_FRAME_SIZE < maxLen - length
      requires fetched == ControlOf(replies) && AskedControl(control, start, replies) && turn == start + |replies|
      requires OneByOne(replies) && Settled(replies) && id !in HaveReplied(replies)
      requires streamsWithControlFrames == before - HaveNoMore(replies)
      modifies this`streamsWithControlFrames, this`turn
      ensures 0 <= length' == ControlLen(fetched') <= maxLen + Excess(largest)
      ensures fetched' == ControlOf(replies') && AskedControl(control, start, replies') && turn == start + |replies'|
      ensures OneByOne(replies') && HaveReplied(replies') == HaveReplied(replies) + {id}
      ensures streamsWithControlFrames == before - HaveNoMore(replies')
      ensures Settled(replies') || maxLen - length' <= MAX_STREAM_CONTROL_FRAME_SIZE
    {
      hide ControlOf, HaveReplied, HaveNoMore, OneByOne, AskedControl;
      fetched', length', replies' := fetched, length, replies;
      var again := true;
      while again && maxLen - length' > MAX_STREAM_CONTROL_FRAME_SIZE
        invariant 0 <= length' == ControlLen(fetched') <= maxLen + Excess(largest)
        invariant fetched' == ControlOf(replies') && AskedControl(control, start, replies')
                  && turn == start + |replies'|
        invariant OneByOne(replies') && streamsWithControlFrames == before - HaveNoMore(replies')
        invariant |replies| <= |replies'|
        invariant |replies'| == |replies| ==> replies' == replies && again && length' == length
        invariant |replies'| > |replies| ==>
                      replies'[|replies'| - 1].id == id && HaveReplied(replies') == HaveReplied(replies) + {id}
                      && (again <==> AsksAgain(replies'[|replies'| - 1]))
        decreases again, maxLen - length'
      {
        var a := control(id, turn);
        OneMoreReply(replies', Replied(id, a));
        AskedControlOne(control, start, replies', Replied(id, a));
        NextReply(replies', Replied(id, a));
        replies' := replies' + [Replied(id, a)];
        turn := turn + 1;
        if !a.hasMore {
          streamsWithControlFrames := streamsWithControlFrames - {id};
        }
        again := a.frame.Some? && a.hasMore;
        if a.frame.Some? {
          assert NotLarger(a, largest);
          ControlLenAdd(fetched', a.frame.value);
          fetched' := fetched' + [a.frame.value];
          length' := length' + a.frame.value.size;
        }
      }
    }

    /** Takes queued frames from the end, until one does not fit. */
    method TakeControlFrames(maxLen: int) returns (taken: seq<ControlFrame>)
      requires Valid()
      modifies this`controlFrames
      ensures Valid() && controlFrames + Reversed(taken) == old(controlFrames)
                && 0 <= ControlLen(taken) <= Max(0, maxLen)
      ensures controlFrames != [] ==> ControlLen(taken) + controlFrames[|controlFrames| - 1].size > maxLen
    {
      taken := [];
      var length := 0;
      while |controlFrames| > 0
        invariant Valid() && controlFrames + Reversed(taken) == old(controlFrames)
                  && 0 <= length == ControlLen(taken) <= Max(0, maxLen)
        decreases |controlFrames|
      {
        var frame := controlFrames[|controlFrames| - 1];
        if length + frame.size > maxLen {
          break;
        }
        assert controlFrames == controlFrames[..|controlFrames| - 1] + [frame];
        ControlLenAdd(taken, frame);
        ReversedAdd(taken, frame);
        taken := taken + [frame];
        length := length + frame.size;
        controlFrames := controlFrames[..|controlFrames| - 1];
      }
    }

    /** The control frames of a packet. Every frame that was queued is returned or still queued. */
    method AppendControlFrames(maxLen: int, control: ControlSources, ghost largest: int)
      returns (frames: seq<ControlFrame>, ghost replies: seq<Replied>)
      requires Valid() && 0 <= maxLen && AllUpTo(control, largest)
      modifies this`pathResponses, this`streamsWithControlFrames, this`turn, this`controlFrames
      ensures Valid() && 0 <= ControlLen(frames) <= maxLen + Excess(largest)
      ensures multiset(frames) + Queued() == old(Queued()) + multiset(ControlOf(replies))
      ensures Polled(old(streamsWithControlFrames), streamsWithControlFrames, replies)
      ensures || AllAsked(old(streamsWithControlFrames), replies)
              || ControlRoom(maxLen, old(pathResponses), replies) <= MAX_STREAM_CONTROL_FRAME_SIZE
      ensures ControlLen(ControlOf(replies)) <= ControlLen(frames)
      ensures Unqueued(maxLen, old(pathResponses), replies, old(controlFrames), |controlFrames|, frames, controlFrames)
      ensures frames == FirstFrames(maxLen, old(pathResponses), replies, old(controlFrames), |controlFrames|)
      ensures AskedControl(control, old(turn), replies) && turn == old(turn) + |replies|
      ensures pathResponses == if |old(pathResponses)| > 0 && old(pathResponses)[0].size <= maxLen
                               then old(pathResponses)[1..] else old(pathResponses)
    {
      hide AskedControl, ControlOf, ControlLen, PathLen, Reversed, Sized, AllUpTo, Polled, HaveReplied, Settled,
           FirstFrames, Unqueued;
      var path := TakePathResponse(maxLen);
      var fromStreams;
      fromStreams, replies := FetchStreamControl(maxLen - ControlLen(path), control, largest);
      ControlLenConcat(path, fromStreams);
      var taken := TakeControlFrames(maxLen - ControlLen(path + fromStreams));
      ControlLenConcat(path + fromStreams, taken);
      frames := path + fromStreams + taken;
      ReversedElements(taken);
      Arranged(maxLen, old(pathResponses), path, replies, fromStreams, old(controlFrames), controlFrames, taken);
      NothingLost(path, fromStreams, taken, controlFrames, pathResponses, old(controlFrames), old(pathResponses));
    }

    /** All frames that wait in the two queues. */
    ghost function Queued(): multiset<ControlFrame>
      reads this`controlFrames, this`pathResponses
    {
      multiset(controlFrames) + multiset(pathResponses)
    }

    /** Queues a control frame for which the packet has no room. */
    method Delay(f: ControlFrame)
      requires Valid() && 0 < f.size
      modifies this`controlFrames
      ensures Valid() && controlFrames == old(controlFrames) + [f]
    {
      hide Sized;
      SizedAdd(controlFrames, f);
      controlFrames := controlFrames + [f];
    }

    /** Asks the next stream, after the first streams of a queue had their turn and gave these answers. */
    method AskNext(maxLen: int, pop: Streams, ghost before: seq<int>, ghost active: set<int>, ghost start: int,
                   ghost turns: int, ghost answers: seq<Answered>)
      returns (a: StreamAnswer, ghost answers': seq<Answered>)
      requires Valid() && AllHonest(pop) && MIN_STREAM_FRAME_SIZE <= maxLen <= Varint.MAX_2 && turns < |before|
      requires Rotated(before, active, turns, answers, streamQueue, activeStreams)
      requires Asked(pop, start, answers) && turn == start + |answers|
      modifies this`activeStreams, this`streamQueue, this`turn
      ensures Valid() && Honest(a, maxLen + 2)
      ensures Rotated(before, active, turns + 1, answers', streamQueue, activeStreams)
      ensures Asked(pop, start, answers') && turn == start + |answers'|
      ensures a.blocked.Some? ==> answers' != [] && answers'[|answers'| - 1].answer == a
      ensures FramesOf(answers') == FramesOf(answers) + if a.frame.Some? then [a.frame.value] else []
      ensures BlockedOf(answers') == BlockedOf(answers) + if a.blocked.Some? then [a.blocked.value] else []
    {
      hide Honest, FramesOf, BlockedOf, AllHonest, Rotated, Asked, Framer.Valid;
      FirstInQueue(before, active, turns, answers, streamQueue, activeStreams);
      ghost var t, queue, active' := turn, streamQueue, activeStreams;
      a := GetNextStreamFrame(maxLen, pop);
      ghost var now := Answered(queue[0], maxLen + Varint.Len(maxLen), a);
      RotatedStep(before, active, turns, answers, queue, active', now);
      assert queue[0] !in active' ==> active' - {queue[0]} == active';
      answers' := answers;
      if turn != t {
        AskedOne(pop, start, answers, now);
        NextAnswer(answers, now);
        answers' := answers + [now];
      }
    }

    /** The STREAM frames of a packet. Only the last one may be too long, by no more than its length field. */
    method AppendStreamFrames(maxLen: int, pop: Streams)
      returns (streamFrames: seq<StreamFrame>, blocked: seq<ControlFrame>, left: int, ghost late: seq<ControlFrame>,
               ghost turns: int, ghost answers: seq<Answered>)
      requires Valid() && maxLen <= Varint.MAX_2 && AllHonest(pop)
      modifies this`activeStreams, this`streamQueue, this`turn, this`controlFrames
      ensures Valid() && Packed(streamFrames) && left + StreamLen(streamFrames) + ControlLen(blocked) == maxLen
      ensures left >= Min(0, maxLen) || (streamFrames != []
                && left + Varint.Len(|streamFrames[|streamFrames| - 1].data|) >= 0)
      ensures controlFrames == old(controlFrames) + late
      ensures Rotated(old(streamQueue), old(activeStreams), turns, answers, streamQueue, activeStreams)
      ensures 0 <= ControlLen(blocked) && (turns == |old(streamQueue)| || Full(left, answers, controlFrames))
      ensures streamFrames == FramesOf(answers) && blocked + late == BlockedOf(answers)
      ensures Asked(pop, old(turn), answers) && turn == old(turn) + |answers|
    {
      hide Length, Sized, StreamLen, ControlLen, Honest, FramesOf, BlockedOf, AllHonest, Requeued, WereAsked, Finished,
           Rotated, Asked, Framer.Valid;
      streamFrames, blocked, left, late, turns, answers := [], [], maxLen, [], 0, [];
      NoAnswers();
      AskedNone(pop, turn);
      NotRotated(streamQueue, activeStreams);
      EmptyLen();
      var numActiveStreams := |streamQueue|;
      for i := 0 to numActiveStreams
        invariant Valid() && Packed(streamFrames) && left + StreamLen(streamFrames) + ControlLen(blocked) == maxLen
        invariant left <= maxLen
        invariant left >= Min(0, maxLen)
                    || (streamFrames != [] && left + Varint.Len(|streamFrames[|streamFrames| - 1].data|) >= 0)
        invariant controlFrames == old(controlFrames) && late == []
        invariant Rotated(old(streamQueue), old(activeStreams), i, answers, streamQueue, activeStreams)
        invariant turns == i && 0 <= ControlLen(blocked)
        invariant streamFrames == FramesOf(answers) && blocked == BlockedOf(answers)
        invariant Asked(pop, old(turn), answers) && turn == old(turn) + |answers|
      {
        if MIN_STREAM_FRAME_SIZE > left {
          break;
        }
        var a;
        a, answers := AskNext(left, pop, old(streamQueue), old(activeStreams), old(turn), i, answers);
        turns := turns + 1;
        AnswerFacts(a, left + 2);
        if a.frame.Some? {
          Overdraft(a.frame.value, left);
          StreamLenAdd(streamFrames, a.frame.value);
          streamFrames := streamFrames + [a.frame.value];
          left := left - Length(a.frame.value);
        }
        if a.blocked.Some? {
          var l := a.blocked.value.size;
          if left < l {
            Delay(a.blocked.value);
            late := [a.blocked.value];
            break;
          }
          ControlLenAdd(blocked, a.blocked.value);
          blocked := blocked + [a.blocked.value];
          left := left - l;
        }
      }
    }

    /** Fills a packet. The frames are not longer than `maxLen`, although each STREAM frame may use the bytes of its
        own length field twice, if the control frames of the streams are as small as declared, and too long by a few
        bytes otherwise. Only the last STREAM frame has no length field. Exactly the STREAM frames that streams gave
        away are in the packet, no control frame is lost, and streams that were not asked keep their place at the
        front of the queue. */
    method Append(maxLen: int, pop: Streams, control: ControlSources, connBlocked: Option<ControlFrame>,
                  ghost largest: int)
      returns (frames: seq<ControlFrame>, streamFrames: seq<StreamFrame>, length: int, ghost turns: int,
               ghost replies: seq<Replied>, ghost answers: seq<Answered>, ghost kept: int)
      requires Valid() && 0 <= maxLen <= Varint.MAX_2 && AllHonest(pop) && AllUpTo(control, largest)
      requires connBlocked.Some? ==> connBlocked.value.kind == DataBlocked && 0 < connBlocked.value.size
      modifies this`pathResponses, this`streamsWithControlFrames, this`turn, this`controlFrames, this`activeStreams,
                 this`streamQueue
      ensures Valid()
      ensures AskedControl(control, old(turn), replies) && Asked(pop, old(turn) + |replies|, answers)
      ensures turn == old(turn) + |replies| + |answers|
      ensures streamFrames == LastWithout(FramesOf(answers))
      ensures forall i :: 0 <= i < |streamFrames| ==>
                  streamFrames[i].Writable() && streamFrames[i].dataLenPresent == (i < |streamFrames| - 1)
      ensures length == ControlLen(frames) + StreamLen(streamFrames) <= maxLen + Excess(largest)
      ensures multiset(frames) + Queued() == old(Queued()) + multiset(Created(replies, answers, connBlocked))
      ensures Polled(old(streamsWithControlFrames), streamsWithControlFrames, replies)
      ensures || AllAsked(old(streamsWithControlFrames), replies)
              || ControlRoom(maxLen, old(pathResponses), replies) <= MAX_STREAM_CONTROL_FRAME_SIZE
      ensures ControlLen(ControlOf(replies)) <= ControlLen(frames)
      ensures Unqueued(maxLen, old(pathResponses), replies, old(controlFrames), kept, frames, controlFrames)
      ensures Rotated(old(streamQueue), old(activeStreams), turns, answers, streamQueue, activeStreams)
      ensures Packed(FramesOf(answers))
      ensures || turns == |old(streamQueue)|
              || Full(maxLen - ControlLen(frames) - StreamLen(FramesOf(answers)), answers, controlFrames)
    {
      hide Length, StreamLen, ControlLen, Sized, Honest, Full, Framer.Queued, Asked, AskedControl, FramesOf, BlockedOf,
           ControlOf, Rotated, Polled, AllAsked, ControlRoom, AllHonest, AllUpTo, Unqueued, Packed, LastWithout,
           Created, Framer.Valid;
      ghost var left;
      frames, streamFrames, left, turns, replies, answers, kept := Fill(maxLen, pop, control, connBlocked, largest);
      PackedIsWritable(streamFrames);
      length := ControlLen(frames) + StreamLen(streamFrames);
      streamFrames, length := DropLastLength(streamFrames, length);
    }

    /** The frames of a packet, before the last STREAM frame loses its length field. */
    method Fill(maxLen: int, pop: Streams, control: ControlSources, connBlocked: Option<ControlFrame>,
                ghost largest: int)
      returns (frames: seq<ControlFrame>, streamFrames: seq<StreamFrame>, ghost left: int, ghost turns: int,
               ghost replies: seq<Replied>, ghost answers: seq<Answered>, ghost kept: int)
      requires Valid() && 0 <= maxLen <= Varint.MAX_2 && AllHonest(pop) && AllUpTo(control, largest)
      requires connBlocked.Some? ==> connBlocked.value.kind == DataBlocked && 0 < connBlocked.value.size
      modifies this`pathResponses, this`streamsWithControlFrames, this`turn, this`controlFrames, this`activeStreams,
                 this`streamQueue
      ensures Valid() && Packed(streamFrames) && left + StreamLen(streamFrames) + ControlLen(frames) == maxLen
      ensures left >= -Excess(largest) || (streamFrames != []
                && left + Varint.Len(|streamFrames[|streamFrames| - 1].data|) >= 0)
      ensures AskedControl(control, old(turn), replies) && Asked(pop, old(turn) + |replies|, answers)
      ensures turn == old(turn) + |replies| + |answers| && streamFrames == FramesOf(answers)
      ensures multiset(frames) + Queued() == old(Queued()) + multiset(Created(replies, answers, connBlocked))
      ensures Polled(old(streamsWithControlFrames), streamsWithControlFrames, replies)
      ensures || AllAsked(old(streamsWithControlFrames), replies)
              || ControlRoom(maxLen, old(pathResponses), replies) <= MAX_STREAM_CONTROL_FRAME_SIZE
      ensures ControlLen(ControlOf(replies)) <= ControlLen(frames)
      ensures Unqueued(maxLen, old(pathResponses), replies, old(controlFrames), kept, frames, controlFrames)
      ensures Rotated(old(streamQueue), old(activeStreams), turns, answers, streamQueue, activeStreams)
      ensures turns == |old(streamQueue)| || Full(left, answers, controlFrames)
    {
      hide Length, StreamLen, ControlLen, Sized, Honest, Full, Framer.Queued, Asked, AskedControl, FramesOf, BlockedOf,
           ControlOf, Rotated, Polled, AllAsked, ControlRoom, AllHonest, AllUpTo, Unqueued, Packed, Framer.Valid;
      var room;
      frames, streamFrames, room, turns, replies, answers, kept := Collect(maxLen, pop, control, largest);
      left := room;
      ghost var created := Created(replies, answers, None);
      assert created == ControlOf(replies) + BlockedOf(answers);
      if connBlocked.Some? {
        ghost var queued, frames0 := controlFrames, frames;
        frames, left := AppendDataBlocked(connBlocked.value, frames, room, created, old(Queued()));
        StillUnqueued(maxLen, old(pathResponses), replies, old(controlFrames), kept, frames0, queued, frames,
            controlFrames);
        if turns != |old(streamQueue)| {
          StillFull(room, left, answers, queued, controlFrames);
        }
      }
    }

    /** Adds a DATA_BLOCKED frame to the packet, or queues it if there is no room. */
    method AppendDataBlocked(f: ControlFrame, frames: seq<ControlFrame>, left: int, ghost created: seq<ControlFrame>,
                             ghost before: multiset<ControlFrame>)
      returns (frames': seq<ControlFrame>, ghost left': int)
      requires Valid() && 0 < f.size && multiset(frames) + Queued() == before + multiset(created)
      modifies this`controlFrames
      ensures Valid() && multiset(frames') + Queued() == before + multiset(created + [f])
      ensures frames' == (if f.size <= left then frames + [f] else frames)
                && left' == left - ControlLen(frames') + ControlLen(frames)
      ensures ControlLen(frames) <= ControlLen(frames') && (left' == left || 0 <= left' < left)
      ensures old(controlFrames) <= controlFrames
    {
      hide ControlLen, Framer.Queued, Framer.Valid;
      BalanceOne(frames, created, before, f);
      frames', left' := frames, left;
      if left >= f.size {
        ControlLenAdd(frames, f);
        frames' := frames + [f];
        left' := left - f.size;
      } else {
        Delay(f);
        QueuedNow(controlFrames[..|controlFrames| - 1], [f]);
      }
    }

    /** Control frames and STREAM frames, before the last STREAM frame loses its length field. */
    method Collect(maxLen: int, pop: Streams, control: ControlSources, ghost largest: int)
      returns (frames: seq<ControlFrame>, streamFrames: seq<StreamFrame>, left: int, ghost turns: int,
               ghost replies: seq<Replied>, ghost answers: seq<Answered>, ghost kept: int)
      requires Valid() && 0 <= maxLen <= Varint.MAX_2 && AllHonest(pop) && AllUpTo(control, largest)
      modifies this`pathResponses, this`streamsWithControlFrames, this`turn, this`controlFrames, this`activeStreams,
                 this`streamQueue
      ensures Valid() && Packed(streamFrames) && left + StreamLen(streamFrames) + ControlLen(frames) == maxLen
      ensures left >= -Excess(largest) || (streamFrames != []
                && left + Varint.Len(|streamFrames[|streamFrames| - 1].data|) >= 0)
      ensures AskedControl(control, old(turn), replies) && Asked(pop, old(turn) + |replies|, answers)
      ensures turn == old(turn) + |replies| + |answers| && streamFrames == FramesOf(answers)
      ensures multiset(frames) + Queued() == old(Queued()) + multiset(ControlOf(replies) + BlockedOf(answers))
      ensures Polled(old(streamsWithControlFrames), streamsWithControlFrames, replies)
      ensures || AllAsked(old(streamsWithControlFrames), replies)
              || ControlRoom(maxLen, old(pathResponses), replies) <= MAX_STREAM_CONTROL_FRAME_SIZE
      ensures ControlLen(ControlOf(replies)) <= ControlLen(frames)
      ensures Unqueued(maxLen, old(pathResponses), replies, old(controlFrames), kept, frames, controlFrames)
      ensures Rotated(old(streamQueue), old(activeStreams), turns, answers, streamQueue, activeStreams)
      ensures turns == |old(streamQueue)| || Full(left, answers, controlFrames)
    {
      hide Length, StreamLen, ControlLen, Honest, Packed, Framer.Queued, Asked, AskedControl, FramesOf, BlockedOf,
           ControlOf, Rotated, Polled, AllAsked, Unqueued, FirstFrames, Full, ControlRoom;
      ghost var late;
      frames, replies := AppendControlFrames(maxLen, control, largest);
      ghost var before := controlFrames;
      kept := |controlFrames|;
      assert before + [] == before;
      QueuedNow(before, []);
      left := maxLen - ControlLen(frames);
      var blocked;
      streamFrames, blocked, left, late, turns, answers := AppendStreamFrames(left, pop);
      ControlLenConcat(frames, blocked);
      BalanceAll(frames, before, pathResponses, old(Queued()), ControlOf(replies), blocked, late, BlockedOf(answers));
      QueuedNow(before, late);
      StillUnqueued(maxLen, old(pathResponses), replies, old(controlFrames), kept, frames, before, frames + blocked,
                    controlFrames);
      frames := frames + blocked;
    }

    lemma BalanceOne(frames: seq<ControlFrame>, created: seq<ControlFrame>, before: multiset<ControlFrame>,
                     f: ControlFrame)
      requires multiset(frames) + Queued() == before + multiset(created)
      ensures multiset(frames + [f]) + Queued() == before + multiset(created + [f])
      ensures multiset(frames) + (multiset(controlFrames + [f]) + multiset(pathResponses)) ==
              before + multiset(created + [f])
    {
      Balance(frames, controlFrames, pathResponses, before, created, [f], []);
      Balance(frames, controlFrames, pathResponses, before, created, [], [f]);
      assert controlFrames + [] == controlFrames && created + [f] + [] == created + [f]
                && created + [] + [f] == created + [f];
      assert frames + [] == frames;
    }

    lemma QueuedNow(before: seq<ControlFrame>, late: seq<ControlFrame>)
      requires controlFrames == before + late
      ensures Queued() == multiset(before + late) + multiset(pathResponses)
    {
    }

    /** Forgets the active streams and all flow control frames; the other frames keep their order. */
    method Handle0RTTRejection()
      requires Valid()
      modifies this`streamQueue, this`activeStreams, this`controlFrames
      ensures Valid() && streamQueue == [] && activeStreams == {} && controlFrames == Surviving(old(controlFrames))
    {
      streamQueue := [];
      activeStreams := {};
      SurvivorsSized(controlFrames);
      controlFrames := KeepSurviving(controlFrames);
    }
  }

  /** Moves the surviving frames to the front of the list, and cuts off the rest. */
  method KeepSurviving(before: seq<ControlFrame>) returns (frames: seq<ControlFrame>)
    ensures frames == Surviving(before)
  {
    frames := before;
    var j := 0;
    for i := 0 to |frames|
      invariant 0 <= j <= i && |frames| == |before|
      invariant forall k :: i <= k < |before| ==> frames[k] == before[k]
      invariant frames[..j] == Surviving(before[..i])
    {
      var frame := frames[i];
      assert before[..i + 1][..i] == before[..i];
      if frame.kind.PathResponse? || frame.kind.Other? {
        frames := frames[j := frame];
        assert frames[..j + 1] == frames[..j] + [frame];
        j := j + 1;
      }
    }
    assert before[..|before|] == before;
    frames := frames[..j];
  }

  /** These are the places of the surviving frames. */
  ghost predicate AreSurvivors(places: seq<int>, frames: seq<ControlFrame>, survivors: seq<ControlFrame>) {
    && |places| == |survivors|
    && (forall k :: 0 <= k < |places| ==> 0 <= places[k] < |frames| && survivors[k] == frames[places[k]])
    && (forall k, l :: 0 <= k < l < |places| ==> places[k] < places[l])
    && (forall i :: 0 <= i < |frames| ==> (i in places <==> !IsFlowControl(frames[i])))
  }

  lemma OneMoreSurvivor(places: seq<int>, frames: seq<ControlFrame>, survivors: seq<ControlFrame>, f: ControlFrame)
    requires AreSurvivors(places, frames, survivors)
    ensures if IsFlowControl(f) then AreSurvivors(places, frames + [f], survivors)
            else AreSurvivors(places + [|frames|], frames + [f], survivors + [f])
  {
    assert forall i :: i in places + [|frames|] <==> i in places || i == |frames|;
    assert forall i :: i in places ==> i < |frames|;
  }

  lemma SurvivingStep(frames: seq<ControlFrame>)
    requires frames != []
    ensures var n := |frames| - 1;
            Surviving(frames) == if IsFlowControl(frames[n]) then Surviving(frames[..n])
                                 else Surviving(frames[..n]) + [frames[n]]
  {
  }

  /** Exactly the frames that do not belong to flow control survive, in their order. */
  lemma {:induction false} SurvivorsInOrder(frames: seq<ControlFrame>) returns (places: seq<int>)
    ensures AreSurvivors(places, frames, Surviving(frames))
  {
    if frames == [] {
      places := [];
    } else {
      hide AreSurvivors, Surviving;
      var n := |frames| - 1;
      places := SurvivorsInOrder(frames[..n]);
      OneMoreSurvivor(places, frames[..n], Surviving(frames[..n]), frames[n]);
      SurvivingStep(frames);
      assert frames == frames[..n] + [frames[n]];
      if !IsFlowControl(frames[n]) {
        places := places + [n];
      }
    }
  }

  lemma {:induction false} SurvivorsSized(frames: seq<ControlFrame>)
    requires Sized(frames)
    ensures Sized(Surviving(frames))
  {
    if frames != [] {
      SurvivorsSized(frames[..|frames| - 1]);
    }
  }

  /** The control frames that came up while the packet was filled. */
  function Created(replies: seq<Replied>, answers: seq<Answered>,
        connBlocked: Option<ControlFrame>): seq<ControlFrame> {
    ControlOf(replies) + BlockedOf(answers) + if connBlocked.Some? then [connBlocked.value] else []
  }

  /** The last frame gives up its length field. */
  function LastWithout(frames: seq<StreamFrame>): seq<StreamFrame> {
    if frames == [] then [] else frames[|frames| - 1 := frames[|frames| - 1].(dataLenPresent := false)]
  }

  predicate Packed(frames: seq<StreamFrame>) {
    forall i :: 0 <= i < |frames| ==> frames[i].Writable() && frames[i].dataLenPresent
  }

  function Reversed(frames: seq<ControlFrame>): seq<ControlFrame> {
    if frames == [] then [] else [frames[|frames| - 1]] + Reversed(frames[..|frames| - 1])
  }

  /** The length of RESET_STREAM, and of RESET_STREAM_AT if there is a reliable size. */
  function ResetStreamLen(streamID: int, errorCode: int, finalSize: int, reliableSize: int): int
    requires Varint.Fits(streamID) && Varint.Fits(errorCode) && Varint.Fits(finalSize) && Varint.Fits(reliableSize)
  {
    1 + Varint.Len(streamID) + Varint.Len(errorCode) + Varint.Len(finalSize)
      + if reliableSize > 0 then Varint.Len(reliableSize) else 0
  }

  /** The frame as it is written: RESET_STREAM_AT if there is a reliable size. */
  function ResetStreamBytes(streamID: int, errorCode: int, finalSize: int, reliableSize: int): seq<Byte>
    requires Varint.Fits(streamID) && Varint.Fits(errorCode) && Varint.Fits(finalSize) && Varint.Fits(reliableSize)
  {
    Varint.Append(if reliableSize == 0 then 0x04 else 0x24) + Varint.Append(streamID) + Varint.Append(errorCode)
      + Varint.Append(finalSize) + if reliableSize > 0 then Varint.Append(reliableSize) else []
  }

  /** RESET_STREAM has the declared size; RESET_STREAM_AT can make a packet too long by at most 7 bytes, and it does
      reach that. */
  lemma ResetStreamSizes(streamID: int, errorCode: int, finalSize: int, reliableSize: int)
    requires Varint.Fits(streamID) && Varint.Fits(errorCode) && Varint.Fits(finalSize) && Varint.Fits(reliableSize)
    ensures |ResetStreamBytes(streamID, errorCode, finalSize, reliableSize)|
              == ResetStreamLen(streamID, errorCode, finalSize, reliableSize)
    ensures reliableSize == 0 ==> Excess(ResetStreamLen(streamID, errorCode, finalSize, reliableSize)) == 0
    ensures Excess(ResetStreamLen(streamID, errorCode, finalSize, reliableSize)) <= 7
    ensures Excess(ResetStreamLen(Varint.MAX_8, Varint.MAX_8, Varint.MAX_8, Varint.MAX_8)) == 7
  {
  }

  /** Every control frame that is larger than declared, by more than one byte, makes some packet too long: there is a
      framer where it comes out of a call that allows for 26 bytes. */
  method LargerFrame(size: int) returns (f: Framer, frames: seq<ControlFrame>, length: int)
    requires MAX_STREAM_CONTROL_FRAME_SIZE + 1 < size
    ensures fresh(f) && f.Valid() && length == size > MAX_STREAM_CONTROL_FRAME_SIZE + 1
  {
    f := new Framer();
    f.AddStreamWithControlFrames(0);
    var answer := ControlAnswer(Some(ControlFrame(Other, 0, size)), false);
    var control := (id, t) => answer;
    ghost var replies;
    ghost var turns, answers, kept;
    var streamFrames;
    frames, streamFrames, length, turns, replies, answers, kept :=
      f.Append(MAX_STREAM_CONTROL_FRAME_SIZE + 1, (id, n, t) => StreamAnswer(None, None, false), control, None, size);
    NoReplies();
    assert HaveReplied(replies) == {0} || ControlLen(ControlOf(replies)) > 0;
    assert replies != [];
    SameReplies(control, 0, replies, size);
    StreamLenPositive(streamFrames);
  }

  lemma {:induction false} SameReplies(control: ControlSources, t: int, replies: seq<Replied>, size: int)
    requires forall id, u :: control(id, u).frame == Some(ControlFrame(Other, 0, size))
    requires AskedControl(control, t, replies) && replies != [] && 0 <= size
    ensures size <= ControlLen(ControlOf(replies))
  {
    var n := |replies| - 1;
    assert ControlGivenAt(control, t + n, replies[n]);
    ControlLenAdd(ControlOf(replies[..n]), replies[n].answer.frame.value);
    if n > 0 {
      SameReplies(control, t, replies[..n], size);
    } else {
      assert replies[..n] == [];
    }
  }

  lemma {:induction false} StreamLenPositive(frames: seq<StreamFrame>)
    requires forall i :: 0 <= i < |frames| ==> frames[i].Writable()
    ensures 0 <= StreamLen(frames)
  {
    if frames != [] {
      StreamLenPositive(frames[..|frames| - 1]);
    }
  }

  lemma ReversedAdd(frames: seq<ControlFrame>, f: ControlFrame)
    ensures Reversed(frames + [f]) == [f] + Reversed(frames)
  {
    assert (frames + [f])[..|frames|] == frames;
  }

  lemma {:induction false} ReversedConcat(frames: seq<ControlFrame>, f: ControlFrame)
    ensures Reversed([f] + frames) == Reversed(frames) + [f]
  {
    var n := |frames| - 1;
    if frames == [] {
      assert [f] + frames == [f] && [f][..0] == [];
    } else {
      assert ([f] + frames)[..n + 1] == [f] + frames[..n];
      ReversedConcat(frames[..n], f);
    }
  }

  lemma {:induction false} ReversedTwice(frames: seq<ControlFrame>)
    ensures Reversed(Reversed(frames)) == frames
  {
    if frames != [] {
      var n := |frames| - 1;
      ReversedTwice(frames[..n]);
      ReversedConcat(Reversed(frames[..n]), frames[n]);
      assert frames == frames[..n] + [frames[n]];
    }
  }

  lemma {:induction false} ReversedElements(frames: seq<ControlFrame>)
    ensures multiset(Reversed(frames)) == multiset(frames)
  {
    if frames != [] {
      var n := |frames| - 1;
      ReversedElements(frames[..n]);
      assert frames == frames[..n] + [frames[n]];
    }
  }

  lemma ControlLenAdd(frames: seq<ControlFrame>, f: ControlFrame)
    ensures ControlLen(frames + [f]) == ControlLen(frames) + f.size
  {
    assert (frames + [f])[..|frames|] == frames;
  }

  lemma {:induction false} ControlLenConcat(a: seq<ControlFrame>, b: seq<ControlFrame>)
    ensures ControlLen(a + b) == ControlLen(a) + ControlLen(b)
  {
    if b == [] {
      assert a + b == a;
    } else {
      var n := |b| - 1;
      ControlLenConcat(a, b[..n]);
      assert a + b == (a + b[..n]) + [b[n]];
      ControlLenAdd(a + b[..n], b[n]);
    }
  }

  lemma StreamLenAdd(frames: seq<StreamFrame>, f: StreamFrame)
    requires f.Writable() && forall i :: 0 <= i < |frames| ==> frames[i].Writable()
    ensures StreamLen(frames + [f]) == StreamLen(frames) + Length(f)
  {
    assert (frames + [f])[..|frames|] == frames;
  }

  lemma EmptyLen()
    ensures StreamLen([]) == 0 && ControlLen([]) == 0
  {
  }

  lemma AnswerFacts(a: StreamAnswer, maxBytes: int)
    requires Honest(a, maxBytes) && MAX_EMPTY_FRAME <= maxBytes
    ensures a.frame.Some? ==>
                a.frame.value.Writable() && a.frame.value.dataLenPresent && Length(a.frame.value) <= maxBytes
    ensures a.blocked.Some? ==> 0 < a.blocked.value.size
  {
  }

  /** A frame that was lent two bytes pays them back when it gives up its length field. */
  lemma Overdraft(f: StreamFrame, left: int)
    requires f.Writable() && f.dataLenPresent && MIN_STREAM_FRAME_SIZE <= left <= Varint.MAX_2 && Length(f) <= left + 2
    ensures Length(f) <= left || Length(f) - Varint.Len(|f.data|) <= left
    ensures 0 < Length(f)
  {
  }

  /** In a larger packet the lent bytes would not be paid back. */
  lemma OverdraftInLargePacket()
    ensures exists f: StreamFrame :: f.Writable() && f.dataLenPresent && Length(f) <= 16384 + Varint.Len(16384)
                                     && 16384 < Length(f) - Varint.Len(|f.data|)
  {
    var data: seq<Byte> := seq(Varint.MAX_2, _ => 0);
    var f := StreamFrame(0, 0, data, false, true);
    assert Length(f) == 2 + 2 + Varint.MAX_2;
  }

  lemma PackedIsWritable(frames: seq<StreamFrame>)
    requires Packed(frames)
    ensures forall f :: f in frames ==> f.Writable()
  {
  }

  /** The last STREAM frame extends to the end of the packet, and needs no length field. */
  method DropLastLength(frames: seq<StreamFrame>, length: int) returns (frames': seq<StreamFrame>, length': int)
    requires Packed(frames)
    ensures frames' == LastWithout(frames)
    ensures forall i :: 0 <= i < |frames'| ==> frames'[i].Writable() && frames'[i].dataLenPresent == (i < |frames'| - 1)
    ensures length' == length - StreamLen(frames) + StreamLen(frames')
    ensures length' == if frames == [] then length else length - Varint.Len(|frames[|frames| - 1].data|)
  {
    hide Length, StreamLen;
    frames', length' := frames, length;
    if |frames| > 0 {
      var n := |frames| - 1;
      var last := frames[n];
      LastWithoutLength(frames);
      length' := length' - Length(last);
      last := last.(dataLenPresent := false);
      length' := length' + Length(last);
      frames' := frames[n := last];
    }
  }

  lemma LastWithoutLength(frames: seq<StreamFrame>)
    requires Packed(frames) && frames != []
    ensures var n := |frames| - 1;
            var last := frames[n].(dataLenPresent := false);
            && last.Writable() && Length(last) == Length(frames[n]) - Varint.Len(|frames[n].data|)
            && (forall f :: f in frames[n := last] ==> f.Writable())
            && StreamLen(frames[n := last]) == StreamLen(frames) - Length(frames[n]) + Length(last)
  {
    var n := |frames| - 1;
    var last := frames[n].(dataLenPresent := false);
    assert frames[n := last][..n] == frames[..n];
  }

  /** Frames that are made while the packet is filled are returned or queued. */
  lemma Balance(first: seq<ControlFrame>, control: seq<ControlFrame>, responses: seq<ControlFrame>,
                before: multiset<ControlFrame>,
                fetched: seq<ControlFrame>, blocked: seq<ControlFrame>, late: seq<ControlFrame>)
    requires multiset(first) + (multiset(control) + multiset(responses)) == before + multiset(fetched)
    ensures multiset(first + blocked) + (multiset(control + late) + multiset(responses)) ==
            before + multiset(fetched + blocked + late)
  {
    assert multiset(fetched + blocked + late) == multiset(fetched) + multiset(blocked) + multiset(late);
    Rearrange(multiset(first), multiset(control), multiset(responses), before, multiset(fetched), multiset(blocked),
              multiset(late));
  }

  lemma BalanceAll(first: seq<ControlFrame>, control: seq<ControlFrame>, responses: seq<ControlFrame>,
                   before: multiset<ControlFrame>, fetched: seq<ControlFrame>, blocked: seq<ControlFrame>,
                   late: seq<ControlFrame>, created: seq<ControlFrame>)
    requires multiset(first) + (multiset(control) + multiset(responses)) == before + multiset(fetched)
    requires blocked + late == created
    ensures multiset(first + blocked) + (multiset(control + late) + multiset(responses)) ==
            before + multiset(fetched + created)
  {
    Balance(first, control, responses, before, fetched, blocked, late);
    assert fetched + blocked + late == fetched + created;
  }

  lemma Rearrange<T>(a: multiset<T>, c: multiset<T>, r: multiset<T>, before: multiset<T>, f: multiset<T>,
                     b: multiset<T>, l: multiset<T>)
    requires a + (c + r) == before + f
    ensures (a + b) + ((c + l) + r) == before + (f + b + l)
  {
    assert (a + b) + ((c + l) + r) == (a + (c + r)) + b + l;
  }

  lemma NothingLost(path: seq<ControlFrame>, fetched: seq<ControlFrame>, taken: seq<ControlFrame>,
                    control: seq<ControlFrame>,
                    responses: seq<ControlFrame>, oldControl: seq<ControlFrame>, oldResponses: seq<ControlFrame>)
    requires path + responses == oldResponses && control + Reversed(taken) == oldControl
    ensures multiset(path + fetched + taken) + (multiset(control) + multiset(responses)) ==
            multiset(oldControl) + multiset(oldResponses) + multiset(fetched)
  {
    ReversedElements(taken);
  }
}
