/** The wire format between the ssh client and the agent: numbers, strings and length-prefixed messages
    (section 5 of RFC 4251). */
module AgentFrames {
  import opened Common

  type Byte = b: int | 0 <= b < 256
  type Bytes = seq<Byte>

  const LIMIT: nat := 0x1_0000_0000

  function Uint32(n: nat): (bytes: Bytes)
    requires n < LIMIT
    ensures |bytes| == 4
  {
    [n / 0x100_0000, n / 0x1_0000 % 0x100, n / 0x100 % 0x100, n % 0x100]
  }

  /** The most significant byte comes first. */
  lemma Uint32IsBigEndian(n: nat)
    requires n < 0x1_0000_0000
    ensures var b := Uint32(n);
      n == 0x100_0000 * (b[0] as int) + 0x1_0000 * (b[1] as int) + 0x100 * (b[2] as int) + b[3]
  {
    var high := n / 0x100;
    assert n == high * 0x100 + n % 0x100;
    var higher := high / 0x100;
    assert high == higher * 0x100 + high % 0x100;
    assert n / 0x1_0000 == higher;
    var highest := higher / 0x100;
    assert higher == highest * 0x100 + higher % 0x100;
    assert n / 0x100_0000 == highest;
  }

  function FromUint32(bytes: Bytes): (n: nat)
    requires |bytes| == 4
    ensures n < LIMIT
  {
    0x100_0000 * (bytes[0] as int) + 0x1_0000 * (bytes[1] as int) + 0x100 * (bytes[2] as int) + bytes[3]
  }

  lemma Uint32RoundTrip(n: nat)
    requires n < 0x1_0000_0000
    ensures FromUint32(Uint32(n)) == n
  {
    Uint32IsBigEndian(n);
  }

  /** A frame: the length of the payload, then the payload. A string inside a message has the same form. */
  function Frame(payload: Bytes): (frame: Bytes)
    requires |payload| < LIMIT
  {
    Uint32(|payload|) + payload
  }

  lemma FrameMeaning(payload: Bytes)
    requires |payload| < LIMIT
    ensures |Frame(payload)| == 4 + |payload| && Frame(payload)[..4] == Uint32(|payload|)
    ensures Frame(payload)[4..] == payload
  {
  }

  ghost predicate AllFit(payloads: seq<Bytes>) {
    forall p :: p in payloads ==> |p| < LIMIT
  }

  ghost function Frames(payloads: seq<Bytes>): Bytes
    requires AllFit(payloads)
  {
    if payloads == [] then [] else Frame(payloads[0]) + Frames(payloads[1..])
  }

  /** The length of the complete frame at the front of a stream. */
  function FrontFrame(stream: Bytes): Option<nat> {
    if |stream| >= 4 && |stream| >= 4 + FromUint32(stream[..4]) then Some(4 + FromUint32(stream[..4])) else None
  }

  /** The payloads of the complete frames at the front of a stream, and what is left. */
  ghost function Deframe(stream: Bytes): (seq<Bytes>, Bytes)
    decreases |stream|
  {
    match FrontFrame(stream)
    case None => ([], stream)
    case Some(n) =>
      var (payloads, rest) := Deframe(stream[n..]);
      ([stream[4..n]] + payloads, rest)
  }

  lemma FrontOfFrame(payload: Bytes, rest: Bytes)
    requires |payload| < LIMIT
    ensures var stream := Frame(payload) + rest;
      && FrontFrame(stream) == Some(4 + |payload|)
      && stream[4..4 + |payload|] == payload && stream[4 + |payload|..] == rest
  {
    var stream := Frame(payload) + rest;
    Uint32RoundTrip(|payload|);
    assert stream[..4] == Uint32(|payload|);
  }

  lemma DeframeOne(payload: Bytes, rest: Bytes)
    requires |payload| < LIMIT
    ensures Deframe(Frame(payload) + rest) == ([payload] + Deframe(rest).0, Deframe(rest).1)
  {
    hide Frame, FrontFrame;
    FrontOfFrame(payload, rest);
  }

  /** Whatever was framed is recovered, in order, and an incomplete frame at the end is left alone. */
  lemma {:induction false} FramesRoundTrip(payloads: seq<Bytes>, rest: Bytes)
    requires AllFit(payloads) && FrontFrame(rest).None?
    ensures Deframe(Frames(payloads) + rest) == (payloads, rest)
    decreases |payloads|
  {
    hide Frame, FrontFrame;
    if payloads == [] {
      assert [] + rest == rest && Deframe(rest) == ([], rest);
    } else {
      var tail := Frames(payloads[1..]) + rest;
      FramesRoundTrip(payloads[1..], rest);
      DeframeOne(payloads[0], tail);
      assert Frames(payloads) + rest == Frame(payloads[0]) + tail;
      assert payloads == [payloads[0]] + payloads[1..];
    }
  }

  lemma {:induction false} FramesAppend(payloads: seq<Bytes>, p: Bytes)
    requires AllFit(payloads) && |p| < LIMIT
    ensures AllFit(payloads + [p]) && Frames(payloads + [p]) == Frames(payloads) + Frame(p)
    decreases |payloads|
  {
    if payloads == [] {
      assert Frames([p]) == Frame(p) + Frames([]);
    } else {
      FramesAppend(payloads[1..], p);
      assert (payloads + [p])[1..] == payloads[1..] + [p];
    }
  }

  /** No stream reads as two different lists of payloads. */
  lemma FramesAreUnambiguous(a: seq<Bytes>, b: seq<Bytes>)
    requires AllFit(a) && AllFit(b) && Frames(a) == Frames(b)
    ensures a == b
  {
    FramesRoundTrip(a, []);
    FramesRoundTrip(b, []);
    assert Frames(a) + [] == Frames(a) && Frames(b) + [] == Frames(b);
  }
}

/** What the agent answers. */
module AgentReplies {
  import opened Common
  import opened AgentFrames

  const REQUEST_IDENTITIES: Byte := 11
  const IDENTITIES_ANSWER: Byte := 12
  const SIGN_REQUEST: Byte := 13
  const SIGN_RESPONSE: Byte := 14
  const FAILURE: Byte := 30

  /** Signing may raise, which gives `None`. */
  datatype Key = Key(blob: Bytes, sign: Bytes -> Option<Bytes>)

  /** The key list with an empty comment after each key; None when a key does not fit. */
  function KeyList(keys: seq<Key>): Option<Bytes> {
    if keys == [] then Some([])
    else if |keys[0].blob| >= LIMIT then None
    else match KeyList(keys[1..])
      case None => None
      case Some(rest) => Some(Frame(keys[0].blob) + Frame([]) + rest)
  }

  function IdentitiesAnswer(keys: seq<Key>): Option<Bytes> {
    if |keys| >= LIMIT then None
    else match KeyList(keys)
      case None => None
      case Some(list) => Some([IDENTITIES_ANSWER] + Uint32(|keys|) + list)
  }

  /** The blobs in a key list, as a client reads them. */
  function ReadKeyList(count: nat, list: Bytes): Option<seq<Bytes>> {
    if count == 0 then if list == [] then Some([]) else None
    else match FrontFrame(list)
      case None => None
      case Some(n) =>
        var blob, after := list[4..n], list[n..];
        match FrontFrame(after)
        case None => None
        case Some(m) =>
          match ReadKeyList(count - 1, after[m..])
          case None => None
          case Some(blobs) => Some([blob] + blobs)
  }

  function ReadIdentities(answer: Bytes): Option<seq<Bytes>> {
    if |answer| < 5 || answer[0] != IDENTITIES_ANSWER then None
    else ReadKeyList(FromUint32(answer[1..5]), answer[5..])
  }

  function Blobs(keys: seq<Key>): seq<Bytes> {
    seq(|keys|, i requires 0 <= i < |keys| => keys[i].blob)
  }

  lemma {:induction false} KeyListRoundTrip(keys: seq<Key>)
    ensures KeyList(keys).Some? <==> forall k :: k in keys ==> |k.blob| < LIMIT
    ensures KeyList(keys).Some? ==> ReadKeyList(|keys|, KeyList(keys).value) == Some(Blobs(keys))
    decreases |keys|
  {
    hide Frame, FrontFrame;
    if keys == [] {
      assert Blobs(keys) == [];
    } else {
      KeyListRoundTrip(keys[1..]);
      assert keys == [keys[0]] + keys[1..];
      if KeyList(keys).Some? {
        var rest := KeyList(keys[1..]).value;
        var after := Frame([]) + rest;
        FrontOfFrame(keys[0].blob, after);
        FrontOfFrame([], rest);
        assert KeyList(keys).value == Frame(keys[0].blob) + after;
        assert [keys[0].blob] + Blobs(keys[1..]) == Blobs(keys);
      }
    }
  }

  /** A client reads back exactly the keys of the agent, in their order. */
  lemma IdentitiesRoundTrip(keys: seq<Key>)
    ensures IdentitiesAnswer(keys).Some? <==> |keys| < LIMIT && forall k :: k in keys ==> |k.blob| < LIMIT
    ensures IdentitiesAnswer(keys).Some? ==> ReadIdentities(IdentitiesAnswer(keys).value) == Some(Blobs(keys))
    ensures IdentitiesAnswer(keys).Some? ==> [12] <= IdentitiesAnswer(keys).value
  {
    KeyListRoundTrip(keys);
    if IdentitiesAnswer(keys).Some? {
      var answer := IdentitiesAnswer(keys).value;
      Uint32RoundTrip(|keys|);
      assert answer[1..5] == Uint32(|keys|);
      assert answer[5..] == KeyList(keys).value;
    }
  }

  /** The signature by the last key with this blob; empty when there is none. Every such key signs, and one that raises
      ends it. */
  function Signature(keys: seq<Key>, blob: Bytes, data: Bytes): Option<Bytes> {
    if keys == [] then Some([])
    else
      var before, last := Signature(keys[..|keys| - 1], blob, data), keys[|keys| - 1];
      if before.None? || last.blob != blob then before else last.sign(data)
  }

  /** The fields of a sign request; `padded` is what the message class makes of one that is cut short. */
  function SignFields(body: Bytes, padded: Bytes -> (Bytes, Bytes)): (Bytes, Bytes) {
    match FrontFrame(body)
    case None => padded(body)
    case Some(n) =>
      match FrontFrame(body[n..])
      case None => padded(body)
      case Some(m) => (body[4..n], body[n..][4..m])
  }

  function SignAnswer(keys: seq<Key>, blob: Bytes, data: Bytes): Option<Bytes> {
    var signed := Signature(keys, blob, data);
    if signed.None? then None
    else if signed.value == [] then Some([FAILURE])
    else if |signed.value| >= LIMIT then None
    else Some([SIGN_RESPONSE] + Frame(signed.value))
  }

  /** The payload sent back for a request. A request of any other type raises before anything is sent, and so does
      an answer that does not fit, or a key that cannot sign. */
  function Reply(keys: seq<Key>, padded: Bytes -> (Bytes, Bytes), request: Bytes): (reply: Option<Bytes>)
    ensures reply.Some? ==> |reply.value| < LIMIT
  {
    var kind := if request == [] then 0 else request[0];
    var answer :=
      if kind == REQUEST_IDENTITIES then IdentitiesAnswer(keys)
      else if kind == SIGN_REQUEST then
        var (blob, data) := SignFields(request[1..], padded);
        SignAnswer(keys, blob, data)
      else None;
    if answer.Some? && |answer.value| >= LIMIT then None else answer
  }

  /** The length of the answer that lists all keys. */
  function AnswerLength(keys: seq<Key>): nat {
    if keys == [] then 5 else |keys[0].blob| + 8 + AnswerLength(keys[1..])
  }

  lemma {:induction false} AnswerLengthMeaning(keys: seq<Key>)
    ensures KeyList(keys).Some? ==> |KeyList(keys).value| + 5 == AnswerLength(keys)
    ensures |keys| + 5 <= AnswerLength(keys) && forall k :: k in keys ==> |k.blob| < AnswerLength(keys)
    decreases |keys|
  {
    if keys != [] {
      AnswerLengthMeaning(keys[1..]);
      assert keys == [keys[0]] + keys[1..];
    }
  }

  /** Exactly the two known kinds of request are answered, as long as the answer fits into a frame and no key with the
      requested blob fails to sign. */
  lemma AnsweredExactlyWhen(keys: seq<Key>, padded: Bytes -> (Bytes, Bytes), request: Bytes)
    ensures Reply(keys, padded, request).Some? <==>
      && request != []
      && (|| (request[0] == 11 && AnswerLength(keys) < LIMIT)
          || (request[0] == 13
              && (forall k :: k in keys && k.blob == Requested(padded, request).0 ==>
                    k.sign(Requested(padded, request).1).Some?)
              && SignatureLength(keys, padded, request) <= LIMIT - 6))
  {
    hide SignFields, Signature, KeyList, AnswerLength;
    if request != [] {
      SignsExactlyWhen(keys, Requested(padded, request).0, Requested(padded, request).1);
    }
    AnswerLengthMeaning(keys);
    KeyListRoundTrip(keys);
  }

  /** The key and the data named by a sign request. */
  function Requested(padded: Bytes -> (Bytes, Bytes), request: Bytes): (Bytes, Bytes)
    requires request != []
  {
    SignFields(request[1..], padded)
  }

  function SignatureLength(keys: seq<Key>, padded: Bytes -> (Bytes, Bytes), request: Bytes): nat
    requires request != []
  {
    var (blob, data) := Requested(padded, request);
    var signed := Signature(keys, blob, data);
    if signed.Some? then |signed.value| else 0
  }

  lemma {:induction false} SignsExactlyWhen(keys: seq<Key>, blob: Bytes, data: Bytes)
    ensures Signature(keys, blob, data).Some? <==> forall k :: k in keys && k.blob == blob ==> k.sign(data).Some?
    decreases |keys|
  {
    if keys != [] {
      var front, last := keys[..|keys| - 1], keys[|keys| - 1];
      SignsExactlyWhen(front, blob, data);
      assert keys == front + [last];
    }
  }

  /** A request to lock the agent, which is of another kind, is not answered at all. */
  lemma UnknownRequestIsNotAnswered(keys: seq<Key>, padded: Bytes -> (Bytes, Bytes), passphrase: Bytes)
    ensures Reply(keys, padded, [22] + passphrase) == None
  {
  }

  /** A well-formed sign request is answered with the signature of the last matching key, unless a key fails to sign. */
  lemma SignRequestAnswered(keys: seq<Key>, padded: Bytes -> (Bytes, Bytes), blob: Bytes, data: Bytes, flags: Bytes)
    requires |blob| < LIMIT && |data| < LIMIT
    ensures var request := [13] + Frame(blob) + Frame(data) + flags;
            var signed := Signature(keys, blob, data);
            Reply(keys, padded, request) ==
              if signed.None? then None
              else if signed.value == [] then Some([30])
              else if |signed.value| + 5 >= LIMIT then None
              else Some([14] + Frame(signed.value))
  {
    hide Uint32, FromUint32, FrontFrame, Signature;
    var request := [SIGN_REQUEST] + Frame(blob) + Frame(data) + flags;
    var after := Frame(data) + flags;
    FrontOfFrame(blob, after);
    FrontOfFrame(data, flags);
    assert request[1..] == Frame(blob) + after;
  }

  lemma {:induction false} SignatureMeaning(keys: seq<Key>, blob: Bytes, data: Bytes, i: nat)
    requires i < |keys| && keys[i].blob == blob
    requires forall j :: i < j < |keys| ==> keys[j].blob != blob
    requires Signature(keys, blob, data).Some?
    ensures Signature(keys, blob, data) == keys[i].sign(data)
    decreases |keys|
  {
    if i < |keys| - 1 {
      SignatureMeaning(keys[..|keys| - 1], blob, data, i);
    }
  }
}

/** The thread that serves one forwarded agent connection. */
module AgentConnection {
  import opened Common
  import opened AgentFrames
  import opened AgentReplies

  /** The replies to a list of requests, those without a reply left out. */
  function Answers(keys: seq<Key>, padded: Bytes -> (Bytes, Bytes), requests: seq<Bytes>): (answers: seq<Bytes>)
    ensures forall a :: a in answers ==> |a| < LIMIT
  {
    if requests == [] then []
    else
      var reply := Reply(keys, padded, requests[|requests| - 1]);
      Answers(keys, padded, requests[..|requests| - 1]) + if reply.Some? then [reply.value] else []
  }

  /** A channel whose peer will send `incoming` and then end the stream, cut into pieces in any way. Its `n`-th send
      takes no more than `window(n)` bytes. */
  class Channel {
    const window: nat -> nat
    var incoming: Bytes
    var sent: Bytes
    var sends: nat

    constructor (incoming: Bytes, window: nat -> nat)
      ensures this.incoming == incoming && this.window == window && sent == [] && sends == 0
    {
      this.incoming, this.window, sent, sends := incoming, window, [], 0;
    }

    /** Blocks until something has arrived; empty at the end of the stream. */
    method Recv(n: nat) returns (chunk: Bytes)
      modifies this`incoming
      ensures |chunk| <= n && old(incoming) == chunk + incoming
      ensures chunk == [] <==> n == 0 || old(incoming) == []
    {
      if n == 0 || |incoming| == 0 {
        return [];
      }
      assert 0 < 1 <= n && 1 <= |incoming|;
      var k :| 0 < k <= n && k <= |incoming|;
      chunk := incoming[..k];
      incoming := incoming[k..];
    }

    /** Sends as much as the window of the channel allows. */
    method Send(bytes: Bytes) returns (count: nat)
      modifies this`sent, this`sends
      ensures count <= |bytes| && sent == old(sent) + bytes[..count] && sends == old(sends) + 1
      ensures bytes[..count] == Taken(bytes, window(old(sends)))
    {
      count := if window(sends) < |bytes| then window(sends) else |bytes|;
      sent, sends := sent + bytes[..count], sends + 1;
    }
  }

  function Taken(bytes: Bytes, window: nat): Bytes {
    if window < |bytes| then bytes[..window] else bytes
  }

  /** What the channel takes of the frames of these answers, from its `first` send on. */
  function TakenAll(window: nat -> nat, first: nat, answers: seq<Bytes>): Bytes
    requires AllFit(answers)
  {
    if answers == [] then []
    else
      var n := |answers| - 1;
      TakenAll(window, first, answers[..n]) + Taken(Frame(answers[n]), window(first + n))
  }

  /** The reply, if there is one, has been handed to the channel. */
  ghost predicate HandedOver(window: nat -> nat, before: Bytes, sendsBefore: nat, after: Bytes, sendsAfter: nat,
                             reply: Option<Bytes>)
    requires reply.Some? ==> |reply.value| < LIMIT
  {
    if reply.None? then after == before && sendsAfter == sendsBefore
    else after == before + Taken(Frame(reply.value), window(sendsBefore)) && sendsAfter == sendsBefore + 1
  }

  /** How many turns find something to read before the first one that finds the end of the stream. */
  function ReadyTurns(turns: seq<(bool, bool)>): nat {
    if turns == [] || turns[0].0 then 0 else (if turns[0].1 then 1 else 0) + ReadyTurns(turns[1..])
  }

  datatype Iteration = Idle | Served | Lost

  class ConnectionThread {
    const keys: seq<Key>
    const padded: Bytes -> (Bytes, Bytes)
    const channel: Channel
    var exit: bool

    constructor (keys: seq<Key>, padded: Bytes -> (Bytes, Bytes), channel: Channel)
      ensures this.keys == keys && this.padded == padded && this.channel == channel && !exit
    {
      this.keys, this.padded, this.channel, exit := keys, padded, channel, false;
    }

    /** Exactly `wanted` bytes, however the stream is cut; None (an exception) when it ends before. */
    method ReadAll(wanted: nat) returns (result: Option<Bytes>)
      modifies channel`incoming
      ensures result.Some? <==> |old(channel.incoming)| >= wanted
      ensures result.Some? ==> |result.value| == wanted && old(channel.incoming) == result.value + channel.incoming
      ensures result.None? ==> channel.incoming == []
    {
      ghost var stream := channel.incoming;
      var bytes := channel.Recv(wanted);
      while |bytes| < wanted
        invariant |bytes| <= wanted && stream == bytes + channel.incoming
        decreases wanted - |bytes|
      {
        if |bytes| == 0 {
          return None;
        }
        var extra := channel.Recv(wanted - |bytes|);
        if |extra| == 0 {
          return None;
        }
        bytes := bytes + extra;
      }
      result := Some(bytes);
    }

    /** The payload of the next frame; a stream that ends inside it raises instead of giving short data. */
    method ReceiveRequest() returns (payload: Option<Bytes>)
      modifies channel`incoming
      ensures payload.Some? <==> FrontFrame(old(channel.incoming)).Some?
      ensures payload.Some? ==>
        |payload.value| < LIMIT && old(channel.incoming) == Frame(payload.value) + channel.incoming
    {
      ghost var stream := channel.incoming;
      var header := ReadAll(4);
      if header.None? {
        return None;
      }
      assert stream[..4] == header.value;
      ghost var afterHeader := channel.incoming;
      payload := ReadAll(FromUint32(header.value));
      if payload.Some? {
        HeaderIsUint32(header.value);
        assert stream == header.value + (payload.value + channel.incoming);
        assert Frame(payload.value) + channel.incoming == header.value + (payload.value + channel.incoming);
      }
    }

    lemma HeaderIsUint32(header: Bytes)
      requires |header| == 4
      ensures Uint32(FromUint32(header)) == header
    {
      var n := FromUint32(header);
      assert n / 0x100 == 0x1_0000 * (header[0] as int) + 0x100 * (header[1] as int) + header[2];
      assert n / 0x1_0000 == 0x100 * (header[0] as int) + header[1];
      assert n / 0x100_0000 == header[0];
    }

    /** One turn of the loop; `eof` and `ready` are what the channel reports at that moment. */
    method Turn(eof: bool, ready: bool) returns (done: Iteration, ghost request: Option<Bytes>)
      modifies this`exit, channel
      ensures done == Served <==> request.Some?
      ensures done == Idle <==> eof || !ready
      ensures done == Served ==> FrontFrame(old(channel.incoming)).Some?
      ensures request.Some? ==>
        && |request.value| < LIMIT && old(channel.incoming) == Frame(request.value) + channel.incoming
        && exit == old(exit)
        && HandedOver(channel.window, old(channel.sent), old(channel.sends), channel.sent, channel.sends,
                      Reply(keys, padded, request.value))
      ensures request.None? ==> channel.sent == old(channel.sent) && channel.sends == old(channel.sends)
      ensures done == Idle ==> channel.incoming == old(channel.incoming) && (exit <==> old(exit) || eof)
      ensures done == Lost ==> exit && FrontFrame(old(channel.incoming)).None?
    {
      hide IdentitiesAnswer, SignAnswer, SignFields, FrontFrame, Frame;
      if eof {
        exit := true;
        return Idle, None;
      }
      if !ready {
        return Idle, None;
      }
      var payload := ReceiveRequest();
      if payload.None? {
        exit := true;
        return Lost, None;
      }
      var kind := if payload.value == [] then 0 else payload.value[0];
      var reply: Option<Bytes> := None;
      if kind == REQUEST_IDENTITIES {
        reply := AgentIdentitiesAnswer();
      } else if kind == SIGN_REQUEST {
        reply := AgentSignResponse(payload.value[1..]);
      }
      SendReply(reply);
      return Served, payload;
    }

    /** An answer whose length does not fit the header raises before anything is sent. */
    method SendReply(reply: Option<Bytes>)
      modifies channel`sent, channel`sends
      ensures HandedOver(channel.window, old(channel.sent), old(channel.sends), channel.sent, channel.sends,
                         if reply.Some? && |reply.value| < LIMIT then reply else None)
    {
      hide Frame;
      if reply.Some? && |reply.value| < LIMIT {
        var _ := channel.Send(Frame(reply.value));
      }
    }

    /** Adds the keys one after the other, each with an empty comment. */
    method AgentIdentitiesAnswer() returns (answer: Option<Bytes>)
      ensures answer == IdentitiesAnswer(keys)
    {
      if |keys| >= LIMIT {
        return None;
      }
      var list: Bytes := [];
      var i := 0;
      assert keys[0..] == keys;
      assert KeyList(keys).Some? ==> [] + KeyList(keys).value == KeyList(keys).value;
      while i < |keys|
        invariant 0 <= i <= |keys|
        invariant KeyList(keys) == match KeyList(keys[i..]) {
          case None => None
          case Some(rest) => Some(list + rest)
        }
      {
        assert keys[i..][0] == keys[i] && keys[i..][1..] == keys[i + 1..];
        if |keys[i].blob| >= LIMIT {
          return None;
        }
        ghost var before := list;
        list := list + Frame(keys[i].blob) + Frame([]);
        if KeyList(keys[i + 1..]).Some? {
          var rest := KeyList(keys[i + 1..]).value;
          assert before + (Frame(keys[i].blob) + Frame([]) + rest) == list + rest;
        }
        i := i + 1;
      }
      assert list + [] == list;
      answer := Some([IDENTITIES_ANSWER] + Uint32(|keys|) + list);
    }

    /** Every matching key signs; the last signature is kept. One that raises is the end of it. */
    method AgentSignResponse(body: Bytes) returns (answer: Option<Bytes>)
      ensures answer == SignAnswer(keys, SignFields(body, padded).0, SignFields(body, padded).1)
    {
      var (blob, data) := SignFields(body, padded);
      var signed: Bytes := [];
      var i := 0;
      while i < |keys|
        invariant 0 <= i <= |keys| && Signature(keys[..i], blob, data) == Some(signed)
      {
        assert keys[..i + 1][..i] == keys[..i];
        if keys[i].blob == blob {
          var next := keys[i].sign(data);
          if next.None? {
            SignsExactlyWhen(keys, blob, data);
            return None;
          }
          signed := next.value;
        }
        i := i + 1;
      }
      assert keys[..i] == keys;
      if signed == [] {
        return Some([FAILURE]);
      }
      if |signed| >= LIMIT {
        return None;
      }
      answer := Some([SIGN_RESPONSE] + Frame(signed));
    }

    /** The loop, for as many turns as it is given. The result of a send is not looked at. */
    method Run(turns: seq<(bool, bool)>, ghost requests: seq<Bytes>, ghost tail: Bytes) returns (ghost served: nat)
      requires AllFit(requests) && FrontFrame(tail).None?
      requires channel.incoming == Frames(requests) + tail && !exit
      modifies this`exit, channel
      ensures served == ServedBy(turns, requests) <= |requests|
      ensures var answers := Answers(keys, padded, requests[..served]);
        && channel.sent == old(channel.sent) + TakenAll(channel.window, old(channel.sends), answers)
        && channel.sends == old(channel.sends) + |answers|
      ensures exit || channel.incoming == Frames(requests[served..]) + tail
      ensures exit && (forall t :: t in turns ==> !t.0) ==> served == |requests|
    {
      hide Frames, Answers, Reply, FrontFrame, Frame, TakenAll, HandedOver;
      served := 0;
      NothingServed(keys, padded, requests, channel.sent, channel.window, channel.sends);
      assert turns[0..] == turns;
      var i := 0;
      while i < |turns| && !exit
        invariant 0 <= i <= |turns| && served <= |requests|
        invariant HandedAll(channel.window, old(channel.sent), old(channel.sends), channel.sent, channel.sends,
                            Answers(keys, padded, requests[..served]))
        invariant exit || channel.incoming == Frames(requests[served..]) + tail
        invariant exit && (forall t :: t in turns ==> !t.0) ==> served == |requests|
        invariant !exit ==> ReadyTurns(turns) == served + ReadyTurns(turns[i..])
        invariant exit ==> served == ServedBy(turns, requests)
      {
        assert turns[i..][1..] == turns[i + 1..];
        ghost var sent, sends := channel.sent, channel.sends;
        var done, request := Turn(turns[i].0, turns[i].1);
        assert turns[i] in turns;
        if request.Some? {
          ServedIsNext(requests, served, tail, request.value, channel.incoming);
          AnswersGrow(keys, padded, requests, served, channel.window, old(channel.sent), old(channel.sends), sent,
                      sends, channel.sent, channel.sends);
          served := served + 1;
        } else if done == Lost {
          NothingLeft(requests, served, tail);
        }
        i := i + 1;
      }
    }
  }

  /** How many requests these turns serve. */
  function ServedBy(turns: seq<(bool, bool)>, requests: seq<Bytes>): nat {
    if ReadyTurns(turns) <= |requests| then ReadyTurns(turns) else |requests|
  }

  ghost predicate HandedAll(window: nat -> nat, start: Bytes, first: nat, sent: Bytes, sends: nat,
                            answers: seq<Bytes>)
    requires AllFit(answers)
  {
    sent == start + TakenAll(window, first, answers) && sends == first + |answers|
  }

  lemma NothingServed(keys: seq<Key>, padded: Bytes -> (Bytes, Bytes), requests: seq<Bytes>, sent: Bytes,
                      window: nat -> nat, sends: nat)
    ensures HandedAll(window, sent, sends, sent, sends, Answers(keys, padded, requests[..0]))
    ensures requests[0..] == requests
  {
  }

  /** The peer gets whole frames exactly when every send takes all of its answer. */
  lemma {:induction false} WholeExactlyWhen(window: nat -> nat, first: nat, answers: seq<Bytes>)
    requires AllFit(answers)
    ensures |TakenAll(window, first, answers)| <= |Frames(answers)|
    ensures TakenAll(window, first, answers) == Frames(answers) <==>
      forall k: nat :: k < |answers| ==> Fits(window, first, answers, k)
  {
    hide Frame, Frames, Fits, Taken;
    if answers == [] {
      assert Frames(answers) == [] by { NoFrames(); }
    } else {
      var n := |answers| - 1;
      var front, last := answers[..n], answers[n];
      WholeExactlyWhen(window, first, front);
      FramesAppend(front, last);
      assert answers == front + [last];
      TakenWhole(window, first, answers, n);
      SameParts(TakenAll(window, first, front), Taken(Frame(last), window(first + n)), Frames(front), Frame(last));
      assert forall k: nat :: k < n ==> (Fits(window, first, front, k) <==> Fits(window, first, answers, k)) by {
        FrontFits(window, first, answers);
      }
    }
  }

  ghost predicate Fits(window: nat -> nat, first: nat, answers: seq<Bytes>, k: nat) {
    k < |answers| && |answers[k]| + 4 <= window(first + k)
  }

  lemma FrontFits(window: nat -> nat, first: nat, answers: seq<Bytes>)
    requires answers != []
    ensures forall k: nat :: k < |answers| - 1 ==>
      (Fits(window, first, answers[..|answers| - 1], k) <==> Fits(window, first, answers, k))
  {
  }

  lemma NoFrames()
    ensures Frames([]) == []
  {
  }

  lemma TakenWhole(window: nat -> nat, first: nat, answers: seq<Bytes>, k: nat)
    requires k < |answers| && |answers[k]| < LIMIT
    ensures var frame := Frame(answers[k]); var part := Taken(frame, window(first + k));
      |part| <= |frame| && (part == frame <==> Fits(window, first, answers, k))
  {
    hide Frame;
    FrameLength(answers[k]);
  }

  lemma SameParts(a: Bytes, b: Bytes, c: Bytes, d: Bytes)
    requires |a| <= |c| && |b| <= |d|
    ensures a + b == c + d <==> a == c && b == d
  {
    if a + b == c + d {
      assert |a| == |c| && (a + b)[..|a|] == a && (c + d)[..|a|] == c;
      assert (a + b)[|a|..] == b && (c + d)[|a|..] == d;
    }
  }

  lemma FrameLength(payload: Bytes)
    requires |payload| < LIMIT
    ensures |Frame(payload)| == |payload| + 4
  {
  }

  /** A request that arrived together with the end of the stream is left unread, although there is an answer to it. */
  method UnansweredAtEnd(padded: Bytes -> (Bytes, Bytes)) returns (sent: Bytes, unread: Bytes, exit: bool)
    ensures sent == [] && unread == Frame([REQUEST_IDENTITIES]) && exit
    ensures Reply([], padded, [REQUEST_IDENTITIES]).Some?
  {
    var channel := new Channel(Frame([REQUEST_IDENTITIES]), n => 100);
    var thread := new ConnectionThread([], padded, channel);
    AnsweredExactlyWhen([], padded, [REQUEST_IDENTITIES]);
    var done, request := thread.Turn(true, true);
    sent, unread, exit := channel.sent, channel.incoming, thread.exit;
  }

  /** Of an answer of nine bytes with its header, the channel takes six. The request is gone, and another turn of the
      thread, which goes on, does not complete the frame. */
  method CutReplyStaysCut(padded: Bytes -> (Bytes, Bytes)) returns (sent: Bytes, unread: Bytes, exit: bool)
    ensures Reply([], padded, [REQUEST_IDENTITIES]) == Some([IDENTITIES_ANSWER, 0, 0, 0, 0])
    ensures sent == Frame([IDENTITIES_ANSWER, 0, 0, 0, 0])[..6] && unread == [] && !exit
    ensures FrontFrame(sent).None?
  {
    var channel := new Channel(Frame([REQUEST_IDENTITIES]), n => 6);
    var thread := new ConnectionThread([], padded, channel);
    var answer: Bytes := [IDENTITIES_ANSWER, 0, 0, 0, 0];
    assert Uint32(0) == [0, 0, 0, 0] && [IDENTITIES_ANSWER] + [0, 0, 0, 0] + [] == answer;
    assert Reply([], padded, [REQUEST_IDENTITIES]) == IdentitiesAnswer([]) == Some(answer);
    var done, request := thread.Turn(false, true);
    OneRequest(channel.incoming, request);
    done, request := thread.Turn(false, false);
    sent, unread, exit := channel.sent, channel.incoming, thread.exit;
  }

  lemma OneRequest(left: Bytes, request: Option<Bytes>)
    requires request.Some? ==> |request.value| < LIMIT && Frame([REQUEST_IDENTITIES]) == Frame(request.value) + left
    ensures FrontFrame(Frame([REQUEST_IDENTITIES])).Some?
    ensures request.Some? ==> request == Some([REQUEST_IDENTITIES]) && left == []
  {
    FrontOfFrame([REQUEST_IDENTITIES], []);
    assert Frame([REQUEST_IDENTITIES]) + [] == Frame([REQUEST_IDENTITIES]);
    if request.Some? {
      FrontOfFrame(request.value, left);
    }
  }

  /** Every request that has an answer is served exactly when those beyond the turns with data have none. */
  lemma AllAnsweredExactlyWhen(keys: seq<Key>, padded: Bytes -> (Bytes, Bytes), requests: seq<Bytes>,
                               turns: seq<(bool, bool)>)
    ensures Answers(keys, padded, requests[..ServedBy(turns, requests)]) == Answers(keys, padded, requests) <==>
      forall k :: ReadyTurns(turns) <= k < |requests| ==> Reply(keys, padded, requests[k]).None?
  {
    hide Reply;
    assert requests[..|requests|] == requests;
    MoreAnswers(keys, padded, requests, ServedBy(turns, requests));
  }

  lemma {:induction false} MoreAnswers(keys: seq<Key>, padded: Bytes -> (Bytes, Bytes), requests: seq<Bytes>, n: nat)
    requires n <= |requests|
    ensures |Answers(keys, padded, requests[..n])| <= |Answers(keys, padded, requests)|
    ensures (forall k :: n <= k < |requests| ==> Reply(keys, padded, requests[k]).None?) ==>
      Answers(keys, padded, requests[..n]) == Answers(keys, padded, requests)
    ensures (exists k :: n <= k < |requests| && Reply(keys, padded, requests[k]).Some?) ==>
      |Answers(keys, padded, requests[..n])| < |Answers(keys, padded, requests)|
    decreases |requests| - n
  {
    hide Reply;
    if n == |requests| {
      assert requests[..n] == requests;
    } else {
      MoreAnswers(keys, padded, requests, n + 1);
      assert requests[..n + 1][..n] == requests[..n];
    }
  }

  lemma ServedIsNext(requests: seq<Bytes>, served: nat, tail: Bytes, payload: Bytes, rest: Bytes)
    requires AllFit(requests) && FrontFrame(tail).None? && |payload| < LIMIT && served <= |requests|
    requires Frames(requests[served..]) + tail == Frame(payload) + rest
    ensures served < |requests| && payload == requests[served] && rest == Frames(requests[served + 1..]) + tail
  {
    var left := requests[served..];
    assert left == [] ==> Frames(left) + tail == tail;
    FrontOfFrame(payload, rest);
    var after := Frames(left[1..]) + tail;
    assert Frames(left) + tail == Frame(left[0]) + after;
    FrontOfFrame(left[0], after);
    assert left[1..] == requests[served + 1..];
  }

  lemma NothingLeft(requests: seq<Bytes>, served: nat, tail: Bytes)
    requires AllFit(requests) && served <= |requests|
    requires FrontFrame(Frames(requests[served..]) + tail).None?
    ensures served == |requests|
  {
    if served < |requests| {
      FirstIsComplete(requests[served..], tail);
    }
  }

  lemma FirstIsComplete(payloads: seq<Bytes>, tail: Bytes)
    requires AllFit(payloads) && payloads != []
    ensures FrontFrame(Frames(payloads) + tail).Some?
  {
    var after := Frames(payloads[1..]) + tail;
    assert Frames(payloads) + tail == Frame(payloads[0]) + after;
    FrontOfFrame(payloads[0], after);
  }

  lemma AnswersGrow(keys: seq<Key>, padded: Bytes -> (Bytes, Bytes), requests: seq<Bytes>, served: nat,
                    window: nat -> nat, start: Bytes, first: nat, before: Bytes, sendsBefore: nat, after: Bytes,
                    sendsAfter: nat)
    requires served < |requests|
    requires HandedAll(window, start, first, before, sendsBefore, Answers(keys, padded, requests[..served]))
    requires HandedOver(window, before, sendsBefore, after, sendsAfter, Reply(keys, padded, requests[served]))
    ensures HandedAll(window, start, first, after, sendsAfter, Answers(keys, padded, requests[..served + 1]))
  {
    hide Reply, Frame, HandedAll, HandedOver;
    assert requests[..served + 1][..served] == requests[..served];
    HandedMore(window, start, first, before, sendsBefore, after, sendsAfter,
               Answers(keys, padded, requests[..served]), Reply(keys, padded, requests[served]));
  }

  lemma HandedMore(window: nat -> nat, start: Bytes, first: nat, before: Bytes, sendsBefore: nat, after: Bytes,
                   sendsAfter: nat, answers: seq<Bytes>, reply: Option<Bytes>)
    requires AllFit(answers) && (reply.Some? ==> |reply.value| < LIMIT)
    requires HandedAll(window, start, first, before, sendsBefore, answers)
    requires HandedOver(window, before, sendsBefore, after, sendsAfter, reply)
    ensures var all := answers + if reply.Some? then [reply.value] else [];
      AllFit(all) && HandedAll(window, start, first, after, sendsAfter, all)
  {
    hide Frame, Taken;
    if reply.Some? {
      assert (answers + [reply.value])[..|answers|] == answers;
    } else {
      assert answers + [] == answers;
    }
  }

  /** A client that reads what was sent finds exactly the answers, in the order of its requests. */
  lemma ClientReadsAnswers(keys: seq<Key>, padded: Bytes -> (Bytes, Bytes), requests: seq<Bytes>)
    ensures Deframe(Frames(Answers(keys, padded, requests))) == (Answers(keys, padded, requests), [])
  {
    FramesRoundTrip(Answers(keys, padded, requests), []);
    assert Frames(Answers(keys, padded, requests)) + [] == Frames(Answers(keys, padded, requests));
  }
}
