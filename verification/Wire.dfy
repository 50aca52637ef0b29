/** Application messages on the wire. A byte is written as the character with its
    code; NUL is '\0'. */
module Wire {
  import opened Common

  const NUL := '\0'
  const PUB_SUB: char := 1 as char
  const INBOX_REQUEST: char := 2 as char
  const INBOX_RESPONSE: char := 3 as char

  const REPLYHANDLE_SIZE := 60

  /** The fields of zmqBridgeMsgImpl that go over the wire. */
  datatype BridgeMsg = BridgeMsg(mMsgType: char, mReplyHandle: string, mSendSubject: string)

  /** What deserialize ends in: the payload handed to the payload bridge, a negative
      payload size, or an access outside the buffer or the handle field, where the
      C code has no defined behaviour. */
  datatype Decoded = Payload(bytes: string) | SystemError | Undefined

  predicate NulFree(s: string) {
    NUL !in s
  }

  /** The fields are C strings that fit their arrays. */
  predicate Fits(m: BridgeMsg) {
    && NulFree(m.mReplyHandle) && |m.mReplyHandle| <= REPLYHANDLE_SIZE
    && NulFree(m.mSendSubject) && |m.mSendSubject| <= MAX_SUBJECT_LENGTH
  }

  const INIT := BridgeMsg(PUB_SUB, "", "")

  /** The reply handle goes along with a request only. */
  function Embedded(m: BridgeMsg): string {
    if m.mMsgType == INBOX_REQUEST then m.mReplyHandle else ""
  }

  /** Subject, NUL, type, embedded handle, NUL, payload. */
  function Encode(m: BridgeMsg, payload: string): string {
    m.mSendSubject + [NUL] + [m.mMsgType] + Embedded(m) + [NUL] + payload
  }

  /** The documented layout of an application message, place by place. */
  predicate LaidOut(zmsg: string, subject: string, msgType: char, handle: string, payload: string) {
    var pos := |subject| + 2;
    && |zmsg| == pos + |handle| + 1 + |payload|
    && zmsg[..|subject|] == subject && zmsg[|subject|] == NUL && zmsg[|subject| + 1] == msgType
    && zmsg[pos..pos + |handle|] == handle && zmsg[pos + |handle|] == NUL && zmsg[pos + |handle| + 1..] == payload
  }

  lemma {:induction false} EncodeLaysOut(m: BridgeMsg, payload: string)
    ensures LaidOut(Encode(m, payload), m.mSendSubject, m.mMsgType, Embedded(m), payload)
  {
    var head, rest := m.mSendSubject + [NUL] + [m.mMsgType], Embedded(m) + [NUL] + payload;
    var zmsg := Encode(m, payload);
    assert zmsg == head + rest;
    assert zmsg[..|m.mSendSubject|] == m.mSendSubject;
    assert zmsg[|head|..] == rest && rest[..|Embedded(m)|] == Embedded(m) && rest[|Embedded(m)| + 1..] == payload;
    assert zmsg[|head|..|head| + |Embedded(m)|] == rest[..|Embedded(m)|];
    assert zmsg[|head| + |Embedded(m)| + 1..] == rest[|Embedded(m)| + 1..];
  }

  /** The C string at the start of a message is its subject, and the type comes next. */
  lemma {:induction false} SubjectFirst(zmsg: string, subject: string, msgType: char, handle: string, payload: string)
    requires LaidOut(zmsg, subject, msgType, handle, payload) && NulFree(subject)
    ensures NulAt(zmsg, 0) == Some(|subject|) && zmsg[..|subject|] == subject
  {
    assert forall i | 0 <= i < |subject| :: zmsg[i] == zmsg[..|subject|][i];
  }

  /** The index of the first NUL at or after `from`, if the buffer has one. */
  function NulAt(buffer: string, from: nat): (r: Option<nat>)
    ensures r.Some? ==> from <= r.value < |buffer| && buffer[r.value] == NUL
    ensures r.Some? ==> forall i | from <= i < r.value :: buffer[i] != NUL
    ensures r.None? ==> forall i | from <= i < |buffer| :: buffer[i] != NUL
    decreases |buffer| - from
  {
    if from >= |buffer| then None
    else if buffer[from] == NUL then Some(from)
    else NulAt(buffer, from + 1)
  }

  /** deserialize into a message that may have been used before. */
  function Decode(m: BridgeMsg, buffer: string): (BridgeMsg, Decoded) {
    match NulAt(buffer, 0)
    case None => (m, Undefined)
    case Some(end) =>
      if end + 1 >= |buffer| then (m, Undefined)
      else DecodeHandle(m.(mMsgType := buffer[end + 1]), buffer, buffer[..end], end + 2)
  }

  function DecodeHandle(m: BridgeMsg, buffer: string, subject: string, pos: nat): (BridgeMsg, Decoded)
    requires pos <= |buffer|
  {
    if m.mMsgType == INBOX_REQUEST then
      match NulAt(buffer, pos)
      case None => (m, Undefined)
      case Some(end) =>
        if end - pos > REPLYHANDLE_SIZE then (m, Undefined)
        else DecodePayload(m.(mReplyHandle := buffer[pos..end]), buffer, end + 1)
    else if m.mMsgType == INBOX_RESPONSE then
      if |subject| > REPLYHANDLE_SIZE then (m, Undefined)
      else DecodePayload(m.(mReplyHandle := subject), buffer, pos + 1)
    else
      DecodePayload(m, buffer, pos + 1)
  }

  /** The first byte of the payload is read as its type, so it has to be there. */
  function DecodePayload(m: BridgeMsg, buffer: string, pos: nat): (BridgeMsg, Decoded) {
    if pos > |buffer| then (m, SystemError)
    else if pos == |buffer| then (m, Undefined)
    else (m, Payload(buffer[pos..]))
  }

  /** The negative payload size is reported for exactly the messages that end with their
      type, except requests, which go on to look for a handle, and responses whose subject
      does not fit the handle. */
  lemma {:induction false} TruncatedExactly(before: BridgeMsg, buffer: string)
    ensures Decode(before, buffer).1.SystemError?
            <==> && |buffer| >= 2 && buffer[|buffer| - 2] == NUL && NulFree(buffer[..|buffer| - 2])
                 && buffer[|buffer| - 1] != INBOX_REQUEST
                 && (buffer[|buffer| - 1] == INBOX_RESPONSE ==> |buffer| - 2 <= REPLYHANDLE_SIZE)
  {
    if |buffer| >= 2 && buffer[|buffer| - 2] == NUL && NulFree(buffer[..|buffer| - 2]) {
      assert forall i | 0 <= i < |buffer| - 2 :: buffer[i] == buffer[..|buffer| - 2][i];
      assert NulAt(buffer, 0) == Some(|buffer| - 2);
    }
    if Decode(before, buffer).1.SystemError? {
      var end := NulAt(buffer, 0).value;
      assert end + 2 == |buffer|;
    }
  }

  // ---- round trip ----

  lemma {:induction false} FirstNul(before: string, middle: string, after: string)
    requires NulFree(middle)
    ensures NulAt(before + (middle + [NUL] + after), |before|) == Some(|before| + |middle|)
  {
    var buffer := before + (middle + [NUL] + after);
    assert forall i | |before| <= i < |before| + |middle| :: buffer[i] == middle[i - |before|];
    assert buffer[|before| + |middle|] == NUL;
  }

  /** The handle that deserialize leaves: embedded in a request, the subject of a
      response, and whatever was there before for anything else. */
  function HandleAfter(before: BridgeMsg, m: BridgeMsg): string {
    if m.mMsgType == INBOX_REQUEST then m.mReplyHandle
    else if m.mMsgType == INBOX_RESPONSE then m.mSendSubject
    else before.mReplyHandle
  }

  /** Wire round trip, for every type, every non-empty payload and every earlier
      content of the target. */
  lemma {:induction false} RoundTrip(before: BridgeMsg, m: BridgeMsg, payload: string)
    requires Fits(m) && payload != ""
    requires m.mMsgType == INBOX_RESPONSE ==> |m.mSendSubject| <= REPLYHANDLE_SIZE
    ensures Decode(before, Encode(m, payload))
            == (before.(mMsgType := m.mMsgType, mReplyHandle := HandleAfter(before, m)), Payload(payload))
  {
    var head := m.mSendSubject + [NUL] + [m.mMsgType];
    var rest := Embedded(m) + [NUL] + payload;
    assert Encode(m, payload) == head + rest by {
      Assoc(head, Embedded(m), [NUL]);
      Assoc(head, Embedded(m) + [NUL], payload);
    }
    DecodeHead(before, m.mSendSubject, m.mMsgType, rest);
    HandleRoundTrip(before.(mMsgType := m.mMsgType), m.mSendSubject, head, Embedded(m), payload);
  }

  /** What comes before the handle. */
  lemma {:induction false} DecodeHead(m: BridgeMsg, subject: string, mMsgType: char, rest: string)
    requires NulFree(subject)
    ensures var head := subject + [NUL] + [mMsgType];
            Decode(m, head + rest) == DecodeHandle(m.(mMsgType := mMsgType), head + rest, subject, |head|)
  {
    var buffer := subject + [NUL] + [mMsgType] + rest;
    FirstNul("", subject, [mMsgType] + rest);
    assert "" + (subject + [NUL] + ([mMsgType] + rest)) == buffer;
    assert buffer[|subject| + 1] == mMsgType && buffer[..|subject|] == subject;
  }

  lemma {:induction false} HandleRoundTrip(m: BridgeMsg, subject: string, head: string, embedded: string,
                                           payload: string)
    requires NulFree(embedded) && |embedded| <= REPLYHANDLE_SIZE && payload != ""
    requires m.mMsgType != INBOX_REQUEST ==> embedded == ""
    requires m.mMsgType == INBOX_RESPONSE ==> |subject| <= REPLYHANDLE_SIZE
    ensures DecodeHandle(m, head + (embedded + [NUL] + payload), subject, |head|)
            == (if m.mMsgType == INBOX_REQUEST then m.(mReplyHandle := embedded)
                else if m.mMsgType == INBOX_RESPONSE then m.(mReplyHandle := subject) else m,
                Payload(payload))
  {
    var buffer := head + (embedded + [NUL] + payload);
    FirstNul(head, embedded, payload);
    assert buffer[|head|..|head| + |embedded|] == embedded;
    assert buffer[|head| + |embedded| + 1..] == payload;
  }

  /** Over a freshly initialised target a pub/sub message leaves no handle; over a
      reused one it leaves the old handle. */
  lemma {:induction false} PubSubKeepsHandle(before: BridgeMsg, subject: string, payload: string)
    requires NulFree(subject) && |subject| <= MAX_SUBJECT_LENGTH && payload != ""
    ensures var m := BridgeMsg(PUB_SUB, "", subject);
            && Decode(INIT, Encode(m, payload)).0.mReplyHandle == ""
            && Decode(before, Encode(m, payload)).0.mReplyHandle == before.mReplyHandle
  {
    RoundTrip(INIT, BridgeMsg(PUB_SUB, "", subject), payload);
    RoundTrip(before, BridgeMsg(PUB_SUB, "", subject), payload);
  }

  // ---- the code ----

  /** memcpy of src into the buffer at pos. */
  method CopyInto(buffer: array<char>, pos: nat, src: string) returns (next: nat)
    requires pos + |src| <= buffer.Length
    modifies buffer
    ensures next == pos + |src|
    ensures buffer[..next] == old(buffer[..pos]) + src
  {
    for i := 0 to |src|
      invariant buffer[..pos + i] == old(buffer[..pos]) + src[..i]
    {
      buffer[pos + i] := src[i];
      assert buffer[..pos + i + 1] == buffer[..pos + i] + [src[i]];
      assert src[..i + 1] == src[..i] + [src[i]];
    }
    next := pos + |src|;
    assert src[..|src|] == src;
  }

  class BridgeMsgImpl {
    var mMsgType: char
    var mReplyHandle: string
    var mSendSubject: string

    function View(): BridgeMsg
      reads this
    {
      BridgeMsg(mMsgType, mReplyHandle, mSendSubject)
    }

    /** zmqBridgeMamaMsgImpl_init. */
    constructor ()
      ensures View() == INIT
    {
      mMsgType, mReplyHandle, mSendSubject := PUB_SUB, "", "";
    }

    /** setSendSubject copies what fits and reports whether that was everything. */
    method SetSendSubject(symbol: string) returns (ok: bool)
      modifies this`mSendSubject
      ensures ok <==> |symbol| <= MAX_SUBJECT_LENGTH
      ensures mSendSubject <= symbol && |mSendSubject| == if ok then |symbol| else MAX_SUBJECT_LENGTH
    {
      ok := |symbol| <= MAX_SUBJECT_LENGTH;
      mSendSubject := if ok then symbol else symbol[..MAX_SUBJECT_LENGTH];
    }

    /** The buffer is sized first and then filled front to back. */
    method Serialize(payload: string) returns (zmsg: array<char>)
      ensures fresh(zmsg) && zmsg[..] == Encode(View(), payload)
      ensures LaidOut(zmsg[..], mSendSubject, mMsgType, if mMsgType == INBOX_REQUEST then mReplyHandle else "", payload)
    {
      EncodeLaysOut(View(), payload);
      var serializedSize := |mSendSubject| + 1 + 1 + |payload|;
      if mMsgType == INBOX_REQUEST {
        serializedSize := serializedSize + |mReplyHandle|;
      }
      serializedSize := serializedSize + 1;
      zmsg := new char[serializedSize];

      var bufferPos := CopyInto(zmsg, 0, mSendSubject + [NUL]);
      bufferPos := CopyInto(zmsg, bufferPos, [mMsgType]);
      if mMsgType == INBOX_REQUEST {
        bufferPos := CopyInto(zmsg, bufferPos, mReplyHandle);
      }
      bufferPos := CopyInto(zmsg, bufferPos, [NUL]);
      bufferPos := CopyInto(zmsg, bufferPos, payload);
      assert zmsg[..bufferPos] == zmsg[..];
    }

    method Deserialize(zmsg: array<char>) returns (result: Decoded)
      modifies this
      ensures (View(), result) == Decode(old(View()), zmsg[..])
    {
      var size := zmsg.Length;
      var subjectEnd := Strlen(zmsg, 0);
      if subjectEnd == size || subjectEnd + 1 == size {
        return Undefined;
      }
      var bufferPos := subjectEnd + 1;
      mMsgType := zmsg[bufferPos];
      bufferPos := bufferPos + 1;

      result := DeserializeRest(zmsg, subjectEnd, bufferPos);
    }

    /** From behind the type on: the handle, by the type, and the payload. */
    method DeserializeRest(zmsg: array<char>, subjectEnd: nat, pos: nat) returns (result: Decoded)
      requires subjectEnd <= pos <= zmsg.Length
      modifies this
      ensures (View(), result) == DecodeHandle(old(View()), zmsg[..], zmsg[..][..subjectEnd], pos)
    {
      var size := zmsg.Length;
      ghost var buffer := zmsg[..];
      var bufferPos := pos;
      if mMsgType == INBOX_REQUEST {
        var handleEnd := Strlen(zmsg, bufferPos);
        if handleEnd == size || handleEnd - bufferPos > REPLYHANDLE_SIZE {
          return Undefined;
        }
        mReplyHandle := zmsg[bufferPos..handleEnd];
        assert mReplyHandle == buffer[bufferPos..handleEnd];
        bufferPos := handleEnd;
      } else if mMsgType == INBOX_RESPONSE {
        if subjectEnd > REPLYHANDLE_SIZE {
          return Undefined;
        }
        mReplyHandle := zmsg[..subjectEnd];
        assert mReplyHandle == buffer[..subjectEnd];
      }
      bufferPos := bufferPos + 1;

      var payloadSize := size - bufferPos;
      if payloadSize < 0 {
        return SystemError;
      }
      if payloadSize == 0 {
        return Undefined;
      }
      assert zmsg[bufferPos..] == buffer[bufferPos..];
      return Payload(zmsg[bufferPos..]);
    }
  }

  /** strlen from `from`, as the index of the NUL; the length of the buffer when the
      scan would leave it. */
  method Strlen(buffer: array<char>, from: nat) returns (end: nat)
    requires from <= buffer.Length
    ensures match NulAt(buffer[..], from) case Some(n) => end == n case None => end == buffer.Length
  {
    end := from;
    while end < buffer.Length && buffer[end] != NUL
      invariant from <= end <= buffer.Length
      invariant NulAt(buffer[..], from) == NulAt(buffer[..], end)
    {
      end := end + 1;
    }
  }
}
