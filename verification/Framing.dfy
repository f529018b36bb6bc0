/** Messages on byte streams: the tagged messages workers send to the server, and the
    NUL-terminated messages shell functions send through a fifo. Both readers keep what
    they cannot use yet, so it does not matter how the stream is cut into reads. */
module Framing {
  import opened Sequences

  newtype byte = x: int | 0 <= x < 256

  // ---- searching ----

  predicate OccursAt(s: seq<byte>, pattern: seq<byte>, i: int) {
    0 <= i <= |s| - |pattern| && s[i..i + |pattern|] == pattern
  }

  /** The first occurrence at or after `from`, or -1. */
  function FindFrom(s: seq<byte>, pattern: seq<byte>, from: nat): (i: int)
    requires from <= |s|
    ensures i == -1 || (from <= i && OccursAt(s, pattern, i))
    ensures forall j :: from <= j && OccursAt(s, pattern, j) ==> 0 <= i <= j
    decreases |s| - from
  {
    if OccursAt(s, pattern, from) then from
    else if from == |s| then -1
    else FindFrom(s, pattern, from + 1)
  }

  function Find(s: seq<byte>, pattern: seq<byte>): (i: int)
    ensures i == -1 || OccursAt(s, pattern, i)
    ensures forall j :: OccursAt(s, pattern, j) ==> 0 <= i <= j
  {
    FindFrom(s, pattern, 0)
  }

  /** More input does not move an occurrence that was found. */
  lemma FindStable(s: seq<byte>, more: seq<byte>, pattern: seq<byte>)
    requires Find(s, pattern) != -1
    ensures Find(s + more, pattern) == Find(s, pattern)
  {
    var i, j := Find(s, pattern), Find(s + more, pattern);
    assert (s + more)[i..i + |pattern|] == s[i..i + |pattern|];
    assert OccursAt(s + more, pattern, i);
    assert (s + more)[j..j + |pattern|] == s[j..j + |pattern|];
    assert OccursAt(s, pattern, j);
  }

  // ---- messages from workers ----

  datatype Kind = Event | ExitCode

  datatype Message = Message(kind: Kind, payload: seq<byte>)

  // "<event>", "</event>", "<exitcode>" and "</exitcode>"
  const EVENT_OPEN: seq<byte> := [60, 101, 118, 101, 110, 116, 62]
  const EVENT_CLOSE: seq<byte> := [60, 47, 101, 118, 101, 110, 116, 62]
  const EXITCODE_OPEN: seq<byte> := [60, 101, 120, 105, 116, 99, 111, 100, 101, 62]
  const EXITCODE_CLOSE: seq<byte> := [60, 47, 101, 120, 105, 116, 99, 111, 100, 101, 62]

  function Open(k: Kind): seq<byte> {
    if k == Event then EVENT_OPEN else EXITCODE_OPEN
  }

  function Close(k: Kind): seq<byte> {
    if k == Event then EVENT_CLOSE else EXITCODE_CLOSE
  }

  function Ascii(s: string): seq<byte>
    requires forall i :: 0 <= i < |s| ==> s[i] < 128 as char
  {
    seq(|s|, i requires 0 <= i < |s| => s[i] as int as byte)
  }

  /** The tags, as the source writes them. */
  lemma TagsAre()
    ensures Open(Event) == Ascii("<event>") && Close(Event) == Ascii("</event>")
    ensures Open(ExitCode) == Ascii("<exitcode>") && Close(ExitCode) == Ascii("</exitcode>")
  {
  }

  /** A whole message of kind `k` stands at the front of the queue. */
  predicate Ready(queue: seq<byte>, k: Kind) {
    StartsWith(queue, Open(k)) && Find(queue, Close(k)) != -1
  }

  lemma ByteAt(s: seq<byte>, pattern: seq<byte>, i: int, j: nat)
    requires OccursAt(s, pattern, i) && j < |pattern|
    ensures s[i + j] == pattern[j]
  {
  }

  lemma TagsDiffer(queue: seq<byte>)
    ensures !(StartsWith(queue, EVENT_OPEN) && StartsWith(queue, EXITCODE_OPEN))
  {
    if StartsWith(queue, EVENT_OPEN) {
      ByteAt(queue, EVENT_OPEN, 0, 2);
    }
    if StartsWith(queue, EXITCODE_OPEN) {
      ByteAt(queue, EXITCODE_OPEN, 0, 2);
    }
  }

  lemma TagFacts(k: Kind)
    ensures |Open(k)| > 1 && |Close(k)| > 1 && Open(k)[1] != Close(k)[1]
    ensures forall i :: 0 <= i < |Open(k)| ==> (Open(k)[i] == 60 <==> i == 0)
    ensures forall i :: 0 <= i < |Close(k)| ==> (Close(k)[i] == 60 <==> i == 0)
  {
  }

  /** A closing tag cannot begin inside the opening one. */
  lemma CloseAfterOpen(queue: seq<byte>, k: Kind, i: int)
    requires StartsWith(queue, Open(k)) && OccursAt(queue, Close(k), i)
    ensures |Open(k)| <= i
  {
    hide Open, Close;
    TagFacts(k);
    ByteAt(queue, Open(k), 0, 1);
    ByteAt(queue, Close(k), i, 0);
    ByteAt(queue, Close(k), i, 1);
    forall j | 0 <= j < |Open(k)|
      ensures queue[j] == Open(k)[j]
    {
      ByteAt(queue, Open(k), 0, j);
    }
  }

  function Payload(queue: seq<byte>, k: Kind): seq<byte>
    requires Ready(queue, k)
  {
    CloseAfterOpen(queue, k, Find(queue, Close(k)));
    queue[|Open(k)|..Find(queue, Close(k))]
  }

  function Rest(queue: seq<byte>, k: Kind): (rest: seq<byte>)
    requires Ready(queue, k)
    ensures |rest| < |queue|
  {
    queue[Find(queue, Close(k)) + |Close(k)|..]
  }

  /** Everything that can be taken off the queue, and what stays in it. */
  function Drain(queue: seq<byte>): (r: (seq<Message>, seq<byte>))
    decreases |queue|
  {
    if Ready(queue, Event) then
      var (messages, left) := Drain(Rest(queue, Event));
      ([Message(Event, Payload(queue, Event))] + messages, left)
    else if Ready(queue, ExitCode) then
      var (messages, left) := Drain(Rest(queue, ExitCode));
      ([Message(ExitCode, Payload(queue, ExitCode))] + messages, left)
    else ([], queue)
  }

  /** The same, whichever kind is looked for first. */
  lemma DrainOne(queue: seq<byte>, k: Kind)
    requires Ready(queue, k)
    ensures Drain(queue).0 == [Message(k, Payload(queue, k))] + Drain(Rest(queue, k)).0
    ensures Drain(queue).1 == Drain(Rest(queue, k)).1
  {
    TagsDiffer(queue);
  }

  class RunQueuePipe {
    var queue: seq<byte>

    constructor ()
      ensures queue == []
    {
      queue := [];
    }

    /** Takes the messages of one kind off the front. */
    method Take(k: Kind) returns (messages: seq<Message>)
      modifies this
      ensures messages + Drain(queue).0 == Drain(old(queue)).0 && Drain(queue).1 == Drain(old(queue)).1
      ensures !Ready(queue, k) && |queue| <= |old(queue)|
      ensures (messages == [] <==> queue == old(queue)) && (messages == [] <==> |queue| == |old(queue)|)
    {
      hide Drain, StartsWith, Ready, Find, Open, Close, Payload, Rest;
      messages := [];
      var index := Find(queue, Close(k));
      while index != -1 && StartsWith(queue, Open(k))
        invariant index == Find(queue, Close(k))
        invariant messages + Drain(queue).0 == Drain(old(queue)).0 && Drain(queue).1 == Drain(old(queue)).1
        invariant |queue| <= |old(queue)|
        invariant (messages == [] <==> queue == old(queue)) && (messages == [] <==> |queue| == |old(queue)|)
        decreases |queue|
      {
        ReadyNow(queue, k);
        DrainOne(queue, k);
        ghost var was := messages;
        messages := messages + [Message(k, queue[|Open(k)|..index])];
        assert messages + Drain(Rest(queue, k)).0 == was + ([Message(k, Payload(queue, k))] + Drain(Rest(queue, k)).0);
        queue := queue[index + |Close(k)|..];
        index := Find(queue, Close(k));
      }
      NotReadyNow(queue, k);
    }

    /** One read: the bytes that have come in are added, and whatever is complete is
        dispatched in order. */
    method Read(input: seq<byte>) returns (messages: seq<Message>, more: bool)
      modifies this
      ensures messages == Drain(old(queue) + input).0 && queue == Drain(old(queue) + input).1
      ensures more <==> input != []
    {
      hide Drain, Ready;
      var start := |queue|;
      queue := queue + input;
      var end := |queue|;
      ghost var all := queue;
      messages := [];
      var found := true;
      while found && |queue| != 0
        invariant messages + Drain(queue).0 == Drain(all).0 && Drain(queue).1 == Drain(all).1
        invariant !found ==> !Ready(queue, Event) && !Ready(queue, ExitCode)
        decreases |queue|, found
      {
        ghost var was, before := messages, queue;
        var events := Take(Event);
        ghost var between := queue;
        var exits := Take(ExitCode);
        messages := messages + events + exits;
        found := events + exits != [];
        ConcatAll(was, events, exits, Drain(queue).0);
        if !found {
          assert events == [] && exits == [];
        }
      }
      DrainStops(queue);
      more := end > start;
    }
  }

  lemma ConcatAll<T>(a: seq<T>, b: seq<T>, c: seq<T>, d: seq<T>)
    ensures a + b + c + d == a + (b + (c + d))
  {
  }

  lemma ReadyNow(queue: seq<byte>, k: Kind)
    requires Find(queue, Close(k)) != -1 && StartsWith(queue, Open(k))
    ensures Ready(queue, k) && 0 <= |Open(k)| <= Find(queue, Close(k)) <= |queue| - |Close(k)|
    ensures Payload(queue, k) == queue[|Open(k)|..Find(queue, Close(k))]
      && Rest(queue, k) == queue[Find(queue, Close(k)) + |Close(k)|..]
    ensures |Rest(queue, k)| < |queue|
  {
    CloseAfterOpen(queue, k, Find(queue, Close(k)));
  }

  lemma NotReadyNow(queue: seq<byte>, k: Kind)
    requires !(Find(queue, Close(k)) != -1 && StartsWith(queue, Open(k)))
    ensures !Ready(queue, k)
  {
  }

  lemma DrainStops(queue: seq<byte>)
    requires queue == [] || (!Ready(queue, Event) && !Ready(queue, ExitCode))
    ensures Drain(queue) == ([], queue)
  {
  }

  // ---- how the stream is cut does not matter ----

  lemma ReadyStable(queue: seq<byte>, more: seq<byte>, k: Kind)
    requires Ready(queue, k)
    ensures Ready(queue + more, k) && Payload(queue + more, k) == Payload(queue, k)
      && Rest(queue + more, k) == Rest(queue, k) + more
  {
    hide Find, Open, Close, StartsWith;
    FindStable(queue, more, Close(k));
    var at := Find(queue, Close(k));
    CloseAfterOpen(queue, k, at);
    StartsStable(queue, more, Open(k));
    assert (queue + more)[|Open(k)|..at] == queue[|Open(k)|..at];
    assert (queue + more)[at + |Close(k)|..] == queue[at + |Close(k)|..] + more;
  }

  lemma StartsStable(queue: seq<byte>, more: seq<byte>, prefix: seq<byte>)
    requires StartsWith(queue, prefix)
    ensures StartsWith(queue + more, prefix)
  {
    assert (queue + more)[..|prefix|] == queue[..|prefix|];
  }

  /** Draining, adding more input and draining again is draining everything at once. */
  lemma {:induction false} DrainMore(queue: seq<byte>, more: seq<byte>)
    ensures Drain(queue + more).0 == Drain(queue).0 + Drain(Drain(queue).1 + more).0
    ensures Drain(queue + more).1 == Drain(Drain(queue).1 + more).1
    decreases |queue|
  {
    hide Ready, Payload, Rest;
    if Ready(queue, Event) || Ready(queue, ExitCode) {
      var k := if Ready(queue, Event) then Event else ExitCode;
      ReadyStable(queue, more, k);
      DrainOne(queue, k);
      DrainOne(queue + more, k);
      ShorterRest(queue, k);
      DrainMore(Rest(queue, k), more);
      var a, b, c := [Message(k, Payload(queue, k))], Drain(Rest(queue, k)).0, Drain(Drain(queue).1 + more).0;
      assert a + (b + c) == a + b + c;
    }
  }

  lemma ShorterRest(queue: seq<byte>, k: Kind)
    requires Ready(queue, k)
    ensures |Rest(queue, k)| < |queue|
  {
  }

  function Concat(chunks: seq<seq<byte>>): seq<byte> {
    if chunks == [] then [] else chunks[0] + Concat(chunks[1..])
  }

  /** However a stream is cut, the reads together dispatch the messages of the whole
      stream in order, and keep the same bytes at the end. */
  method ReadAll(pipe: RunQueuePipe, chunks: seq<seq<byte>>) returns (messages: seq<Message>)
    requires Drain(pipe.queue) == ([], pipe.queue)
    modifies pipe
    ensures messages == Drain(old(pipe.queue) + Concat(chunks)).0
    ensures pipe.queue == Drain(old(pipe.queue) + Concat(chunks)).1
  {
    hide Drain;
    messages := [];
    ghost var all := pipe.queue + Concat(chunks);
    for i := 0 to |chunks|
      invariant messages + Drain(pipe.queue + Concat(chunks[i..])).0 == Drain(all).0
      invariant Drain(pipe.queue + Concat(chunks[i..])).1 == Drain(all).1
      invariant Drain(pipe.queue) == ([], pipe.queue)
    {
      ghost var rest := Concat(chunks[i + 1..]);
      assert chunks[i..][0] == chunks[i] && chunks[i..][1..] == chunks[i + 1..];
      assert pipe.queue + Concat(chunks[i..]) == (pipe.queue + chunks[i]) + rest;
      DrainMore(pipe.queue + chunks[i], rest);
      DrainIdempotent(pipe.queue + chunks[i]);
      ghost var was := messages;
      var now, more := pipe.Read(chunks[i]);
      messages := messages + now;
      assert was + (now + Drain(pipe.queue + rest).0) == messages + Drain(pipe.queue + rest).0;
    }
    assert pipe.queue + Concat(chunks[|chunks|..]) == pipe.queue;
  }

  lemma {:induction false} DrainIdempotent(queue: seq<byte>)
    ensures Drain(Drain(queue).1) == ([], Drain(queue).1)
    decreases |queue|
  {
    if Ready(queue, Event) {
      DrainIdempotent(Rest(queue, Event));
    } else if Ready(queue, ExitCode) {
      DrainIdempotent(Rest(queue, ExitCode));
    }
  }

  // ---- what was sent is what is received ----

  function Encode(m: Message): seq<byte> {
    Open(m.kind) + m.payload + Close(m.kind)
  }

  function EncodeAll(messages: seq<Message>): seq<byte> {
    if messages == [] then [] else Encode(messages[0]) + EncodeAll(messages[1..])
  }

  /** The payload does not contain its own closing tag. */
  predicate Clean(m: Message) {
    Find(m.payload, Close(m.kind)) == -1
  }

  /** The closing tag is found where it was put: an earlier one would have to overlap it,
      and no `<` stands inside a closing tag. */
  lemma CloseFound(m: Message, more: seq<byte>)
    requires Clean(m)
    ensures Find(Encode(m) + more, Close(m.kind)) == |Open(m.kind)| + |m.payload|
  {
    hide Open, Close, Find;
    var s, k := Encode(m) + more, m.kind;
    var at := |Open(k)| + |m.payload|;
    assert s[at..at + |Close(k)|] == Close(k);
    assert OccursAt(s, Close(k), at);
    var i := Find(s, Close(k));
    assert s[..|Open(k)|] == Open(k);
    CloseAfterOpen(s, k, i);
    if i + |Close(k)| <= at {
      InPayload(m, more, i);
    } else if i < at {
      NoOverlap(s, k, i, at);
    }
  }

  lemma InPayload(m: Message, more: seq<byte>, i: int)
    requires OccursAt(Encode(m) + more, Close(m.kind), i)
    requires |Open(m.kind)| <= i && i + |Close(m.kind)| <= |Open(m.kind)| + |m.payload|
    ensures OccursAt(m.payload, Close(m.kind), i - |Open(m.kind)|)
  {
  }

  lemma NoOverlap(s: seq<byte>, k: Kind, i: int, at: int)
    requires OccursAt(s, Close(k), i) && OccursAt(s, Close(k), at) && i <= at < i + |Close(k)|
    ensures i == at
  {
    hide Close;
    TagFacts(k);
    assert s[i..i + |Close(k)|][at - i] == s[at] == s[at..at + |Close(k)|][0];
  }

  lemma EncodedFirst(m: Message, more: seq<byte>)
    requires Clean(m)
    ensures Ready(Encode(m) + more, m.kind)
    ensures Payload(Encode(m) + more, m.kind) == m.payload && Rest(Encode(m) + more, m.kind) == more
  {
    hide Open, Close, FindFrom, Clean;
    CloseFound(m, more);
    assert (Encode(m) + more)[..|Open(m.kind)|] == Open(m.kind);
  }

  /** Every message of the stream is recovered, in order, and nothing else. */
  lemma {:induction false} EncodedAreRecovered(messages: seq<Message>, more: seq<byte>)
    requires forall m :: m in messages ==> Clean(m)
    ensures Drain(EncodeAll(messages) + more) == (messages + Drain(more).0, Drain(more).1)
    decreases |messages|
  {
    hide Drain, Ready, Payload, Rest, Encode, Clean;
    if messages == [] {
      assert EncodeAll(messages) + more == more;
      assert messages + Drain(more).0 == Drain(more).0;
    } else {
      var m, rest := messages[0], EncodeAll(messages[1..]) + more;
      assert EncodeAll(messages) + more == Encode(m) + rest;
      EncodedFirst(m, rest);
      DrainOne(Encode(m) + rest, m.kind);
      EncodedAreRecovered(messages[1..], more);
      assert messages + Drain(more).0 == [m] + (messages[1..] + Drain(more).0);
    }
  }

  /** A stream of messages comes through, whole and with nothing left over, exactly when
      every payload is clean. */
  lemma {:induction false} RecoveredIffClean(messages: seq<Message>)
    ensures Drain(EncodeAll(messages)) == (messages, []) <==> forall m :: m in messages ==> Clean(m)
    decreases |messages|
  {
    hide Drain, Clean, Encode, Ready, Payload, Rest;
    if messages == [] {
      DrainStops([]);
    } else {
      var m, rest := messages[0], EncodeAll(messages[1..]);
      assert messages == [m] + messages[1..];
      if Clean(m) {
        EncodedFirst(m, rest);
        DrainOne(Encode(m) + rest, m.kind);
        RecoveredIffClean(messages[1..]);
        assert Drain(EncodeAll(messages)).0 == [m] + Drain(rest).0;
        assert Drain(EncodeAll(messages)).0[1..] == Drain(rest).0;
      } else {
        CutShort(m, rest);
      }
    }
  }

  /** A message whose payload is not clean is cut short where its closing tag first occurs. */
  lemma CutShort(m: Message, more: seq<byte>)
    requires !Clean(m)
    ensures Drain(Encode(m) + more).0 != [] && Drain(Encode(m) + more).0[0] != m
  {
    hide Open, Close, Drain, Find;
    var s, k := Encode(m) + more, m.kind;
    var in_ := Find(m.payload, Close(k));
    var at := in_ + |Open(k)|;
    assert s[at..at + |Close(k)|] == m.payload[in_..in_ + |Close(k)|];
    assert OccursAt(s, Close(k), at);
    assert s[..|Open(k)|] == Open(k);
    ReadyNow(s, k);
    DrainOne(s, k);
    TagFacts(k);
    assert |Payload(s, k)| < |m.payload|;
    assert Drain(s).0[0].payload == Payload(s, k);
  }

  // ---- messages through the fifo ----

  predicate NoNul(s: seq<byte>) {
    forall i :: 0 <= i < |s| ==> s[i] != 0
  }

  /** The bytes before the first NUL, whether there is one, and the bytes after it. */
  function Partition(s: seq<byte>): (r: (seq<byte>, bool, seq<byte>))
    ensures NoNul(r.0) && (r.1 ==> r.0 + [0] + r.2 == s) && (!r.1 ==> r.0 == s && r.2 == [])
  {
    if s == [] then ([], false, [])
    else if s[0] == 0 then ([], true, s[1..])
    else
      var (before, found, after) := Partition(s[1..]);
      ([s[0]] + before, found, after)
  }

  /** The segments in `s`, each with its NUL, followed by what is left. */
  function JoinNul(segments: seq<seq<byte>>, left: seq<byte>): seq<byte> {
    if segments == [] then left else segments[0] + [0] + JoinNul(segments[1..], left)
  }

  ghost predicate Segments(s: seq<byte>, segments: seq<seq<byte>>, left: seq<byte>) {
    && (forall m :: m in segments ==> NoNul(m)) && NoNul(left)
    && s == JoinNul(segments, left)
  }

  class FifoReader {
    var fifobuffer: seq<byte>

    constructor ()
      ensures fifobuffer == []
    {
      fifobuffer := [];
    }

    /** Adds the data and hands over every complete message. */
    method ReadFifo(data: seq<byte>) returns (messages: seq<seq<byte>>)
      modifies this
      ensures Segments(old(fifobuffer) + data, messages, fifobuffer)
    {
      hide JoinNul;
      fifobuffer := fifobuffer + data;
      ghost var all := fifobuffer;
      messages := [];
      JoinNone(fifobuffer);
      while fifobuffer != []
        invariant forall m :: m in messages ==> NoNul(m)
        invariant JoinNul(messages, fifobuffer) == all
        decreases |fifobuffer|
      {
        var (message, token, nextmsg) := Partition(fifobuffer);
        if token {
          JoinSnoc(messages, message, nextmsg);
          messages := messages + [message];
          fifobuffer := nextmsg;
        } else {
          return;
        }
      }
    }
  }

  lemma {:induction false} JoinSnoc(segments: seq<seq<byte>>, m: seq<byte>, left: seq<byte>)
    ensures JoinNul(segments + [m], left) == JoinNul(segments, m + [0] + left)
    decreases |segments|
  {
    if segments == [] {
      assert ([] + [m])[1..] == [];
    } else {
      assert (segments + [m])[1..] == segments[1..] + [m];
      JoinSnoc(segments[1..], m, left);
    }
  }

  lemma FirstNul(a: seq<byte>, b: seq<byte>, restA: seq<byte>, restB: seq<byte>)
    requires NoNul(a) && NoNul(b) && a + [0] + restA == b + [0] + restB
    ensures a == b && restA == restB
  {
    var s := a + [0] + restA;
    assert s[|a|] == 0 && s[|b|] == 0;
    assert forall i :: 0 <= i < |a| ==> s[i] == a[i];
    assert forall i :: 0 <= i < |b| ==> s[i] == b[i];
    assert a == s[..|a|] && b == s[..|b|];
    assert restA == s[|a| + 1..] && restB == s[|b| + 1..];
  }

  lemma HoldsNul(a: seq<seq<byte>>, left: seq<byte>)
    ensures a != [] ==> !NoNul(JoinNul(a, left))
  {
    if a != [] {
      assert JoinNul(a, left)[|a[0]|] == 0;
    }
  }

  /** There is only one way to cut a stream into segments, so the reader hands over
      exactly these. */
  lemma {:induction false} SegmentsUnique(s: seq<byte>, a: seq<seq<byte>>, leftA: seq<byte>, b: seq<seq<byte>>,
                                          leftB: seq<byte>)
    requires Segments(s, a, leftA) && Segments(s, b, leftB)
    ensures a == b && leftA == leftB
    decreases |a|
  {
    if a == [] || b == [] {
      HoldsNul(a, leftA);
      HoldsNul(b, leftB);
    } else {
      FirstNul(a[0], b[0], JoinNul(a[1..], leftA), JoinNul(b[1..], leftB));
      SegmentsUnique(JoinNul(a[1..], leftA), a[1..], leftA, b[1..], leftB);
    }
  }

  lemma {:induction false} JoinMore(a: seq<seq<byte>>, left: seq<byte>, more: seq<byte>)
    ensures JoinNul(a, left) + more == JoinNul(a, left + more)
    decreases |a|
  {
    if a == [] {
    } else {
      JoinMore(a[1..], left, more);
    }
  }

  lemma {:induction false} JoinConcat(a: seq<seq<byte>>, b: seq<seq<byte>>, left: seq<byte>)
    ensures JoinNul(a + b, left) == JoinNul(a, JoinNul(b, left))
    decreases |a|
  {
    if a == [] {
      assert a + b == b;
    } else {
      assert (a + b)[1..] == a[1..] + b;
      JoinConcat(a[1..], b, left);
    }
  }

  /** However the stream is cut, the reads together hand over the segments of the whole. */
  method ReadFifoAll(reader: FifoReader, chunks: seq<seq<byte>>) returns (messages: seq<seq<byte>>)
    requires NoNul(reader.fifobuffer)
    modifies reader
    ensures Segments(old(reader.fifobuffer) + Concat(chunks), messages, reader.fifobuffer)
  {
    hide JoinNul;
    messages := [];
    ghost var all := reader.fifobuffer;
    JoinNone(all);
    assert chunks[..0] == [];
    for i := 0 to |chunks|
      invariant Segments(all + Concat(chunks[..i]), messages, reader.fifobuffer)
    {
      ghost var was, before := messages, reader.fifobuffer;
      ConcatSnoc(chunks[..i], chunks[i]);
      assert chunks[..i + 1] == chunks[..i] + [chunks[i]];
      JoinMore(was, before, chunks[i]);
      var now := reader.ReadFifo(chunks[i]);
      JoinConcat(was, now, reader.fifobuffer);
      messages := messages + now;
      assert all + Concat(chunks[..i + 1]) == all + Concat(chunks[..i]) + chunks[i];
    }
    assert chunks[..|chunks|] == chunks;
  }

  lemma JoinNone(s: seq<byte>)
    ensures JoinNul([], s) == s && s + Concat([]) == s
  {
  }

  lemma {:induction false} ConcatSnoc(chunks: seq<seq<byte>>, last: seq<byte>)
    ensures Concat(chunks + [last]) == Concat(chunks) + last
    decreases |chunks|
  {
    if chunks == [] {
      assert ([] + [last])[1..] == [];
    } else {
      assert (chunks + [last])[1..] == chunks[1..] + [last];
      ConcatSnoc(chunks[1..], last);
    }
  }
}
