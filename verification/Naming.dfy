/** One transport's side of the naming protocol: the handler for naming
    messages, the announcement it sends, and the thread that announces at
    startup. Foreign calls (zmq_connect, zmq_send, thread creation) are given by
    their outcomes, as are allocations; a socket is given by the set of endpoints it is connected to. */
module Naming {

  datatype Status = Ok | Platform

  /** mUuid and mEndPointAddr stand for the strings of the C struct. */
  datatype NamingMsg = NamingMsg(mType: char, mUuid: nat, mEndPointAddr: nat)

  /** The naming publisher socket: not connected, connected but with the link to
      the proxy still being set up (a PUB socket drops what it sends), or up. */
  datatype Link = Unconnected | Connecting | Up

  /** publishEndpoints, stopped before each of its visible actions: clearing
      mNamingConnected, the loop test with the send, the test of mNamingConnected. */
  datatype Publisher = Absent | Starting | Loop(retries: int) | Check(retries: int) | Finished

  datatype Outcome = Outcome(connectOk: bool, sendOk: bool, memOk: bool, threadOk: bool)

  /** `connected` is the data subscriber's endpoints, `outbox` what the naming
      publisher has accepted and the proxy has not yet taken, `published` the number
      of announcements sent (those the socket dropped included). */
  datatype Transport = Transport(
    mUuid: nat,
    mPubEndpoint: nat,
    mNamingConnectRetries: int,
    mPeers: map<nat, nat>,
    connected: set<nat>,
    namingPub: Link,
    outbox: seq<NamingMsg>,
    mNamingConnected: bool,
    mIsDispatching: bool,
    publisher: Publisher,
    published: nat)

  function Announcement(t: Transport, command: char): NamingMsg {
    NamingMsg(command, t.mUuid, t.mPubEndpoint)
  }

  /** What sendEndpointsMsg does to the naming publisher. */
  function Send(t: Transport, command: char, sendOk: bool): Transport {
    if !sendOk then
      t
    else if t.namingPub.Up? then
      t.(published := t.published + 1, outbox := t.outbox + [Announcement(t, command)])
    else
      t.(published := t.published + 1)
  }

  predicate IsConnect(m: NamingMsg) {
    m.mType == 'C' || m.mType == 'c'
  }

  /** The effect of dispatchNamingMsg, early returns included. */
  function Dispatch(t: Transport, m: NamingMsg, o: Outcome): (Transport, Status) {
    if IsConnect(m) then
      if m.mUuid in t.mPeers then
        (GotOwnMessage(t, m), Ok)
      else if !o.connectOk then
        (t, Platform)
      else if !o.sendOk then
        (t.(connected := t.connected + {m.mEndPointAddr}), Platform)
      else if !o.memOk then
        (Answer(t, m), Platform)
      else
        (GotOwnMessage(AddPeer(t, m), m), Ok)
    else if m.mType == 'D' then
      (t.(mPeers := t.mPeers - {m.mUuid}, connected := t.connected - {m.mEndPointAddr}), Ok)
    else if m.mType == 'W' then
      if !o.connectOk then
        (t, Platform)
      else if !o.threadOk then
        (Connect(t), Platform)
      else
        (Connect(t).(publisher := Starting), Ok)
    else
      (t, Platform)
  }

  /** Connect to a new peer and announce. */
  function Answer(t: Transport, m: NamingMsg): Transport {
    Send(t.(connected := t.connected + {m.mEndPointAddr}), 'C', true)
  }

  function AddPeer(t: Transport, m: NamingMsg): Transport {
    Answer(t, m).(mPeers := t.mPeers[m.mUuid := m.mEndPointAddr])
  }

  /** The handler answers a new peer and then has no memory to remember it. */
  predicate Forgets(t: Transport, m: NamingMsg, o: Outcome) {
    IsConnect(m) && m.mUuid !in t.mPeers && o.connectOk && o.sendOk && !o.memOk
  }

  function GotOwnMessage(t: Transport, m: NamingMsg): Transport {
    if m.mUuid == t.mUuid then t.(mNamingConnected := true) else t
  }

  function Connect(t: Transport): Transport {
    if t.namingPub.Unconnected? then t.(namingPub := Connecting) else t
  }

  /** The next visible action of the startup thread. */
  function PublishStep(t: Transport, sendOk: bool): Transport {
    match t.publisher
    case Starting => t.(mNamingConnected := false, publisher := Loop(t.mNamingConnectRetries))
    case Loop(retries) =>
      if retries - 1 > 0 && t.mIsDispatching then
        Send(t, 'C', sendOk).(publisher := Check(retries - 1))
      else
        t.(publisher := Finished)
    case Check(retries) => t.(publisher := if t.mNamingConnected then Finished else Loop(retries))
    case _ => t
  }

  /** The mutable object behind Transport: the fields of zmqTransportBridge that
      the naming handlers write. */
  class NamingTransport {
    const mUuid: nat
    const mPubEndpoint: nat
    const mNamingConnectRetries: int
    var mPeers: map<nat, nat>
    var connected: set<nat>
    var namingPub: Link
    var outbox: seq<NamingMsg>
    var mNamingConnected: bool
    var mIsDispatching: bool
    var publisher: Publisher
    var published: nat

    constructor (uuid: nat, endpoint: nat, retries: int)
      ensures View() == Fresh(uuid, endpoint, retries)
    {
      mUuid, mPubEndpoint, mNamingConnectRetries := uuid, endpoint, retries;
      mPeers, connected, namingPub, outbox := map[], {}, Unconnected, [];
      mNamingConnected, mIsDispatching, publisher, published := false, true, Absent, 0;
    }

    function View(): Transport
      reads this
    {
      Transport(mUuid, mPubEndpoint, mNamingConnectRetries, mPeers, connected, namingPub, outbox,
                mNamingConnected, mIsDispatching, publisher, published)
    }

    method SendEndpointsMsg(command: char, sendOk: bool) returns (status: Status)
      modifies this`outbox, this`published
      ensures View() == Send(old(View()), command, sendOk)
      ensures status.Ok? <==> sendOk
      ensures outbox == old(outbox)
                        + if sendOk && namingPub == Up then [NamingMsg(command, mUuid, mPubEndpoint)] else []
    {
      if !sendOk {
        return Platform;
      }
      published := published + 1;
      if namingPub == Up {
        outbox := outbox + [NamingMsg(command, mUuid, mPubEndpoint)];
      }
      return Ok;
    }

    method DispatchNamingMsg(m: NamingMsg, o: Outcome) returns (status: Status)
      modifies this
      ensures (View(), status) == Dispatch(old(View()), m, o)
      ensures m.mType !in {'C', 'c', 'D', 'W'} ==> status.Platform? && View() == old(View())
      ensures m.mType == 'D' ==> status.Ok?
      ensures m.mType == 'W' ==> (status.Ok? <==> o.connectOk && o.threadOk)
      ensures m.mType in {'C', 'c'} ==>
                (status.Ok? <==> m.mUuid in old(mPeers) || (o.connectOk && o.sendOk && o.memOk))
      ensures var isNew := (m.mType == 'C' || m.mType == 'c') && m.mUuid !in old(mPeers) && o.connectOk && o.sendOk;
              outbox == old(outbox)
                        + if isNew && old(namingPub) == Up then [NamingMsg('C', mUuid, mPubEndpoint)] else []
    {
      if m.mType == 'C' || m.mType == 'c' {
        if m.mUuid !in mPeers {
          // never seen before: connect, answer, and only then remember the peer
          if !o.connectOk {
            return Platform;
          }
          connected := connected + {m.mEndPointAddr};
          var sent := SendEndpointsMsg('C', o.sendOk);
          if sent != Ok {
            return sent;
          }
          if !o.memOk {
            return Platform;
          }
          mPeers := mPeers[m.mUuid := m.mEndPointAddr];
        }
        if !mNamingConnected && m.mUuid == mUuid {
          mNamingConnected := true;
        }
      } else if m.mType == 'D' {
        mPeers := mPeers - {m.mUuid};
        connected := connected - {m.mEndPointAddr};
      } else if m.mType == 'W' {
        if !o.connectOk {
          return Platform;
        }
        if namingPub == Unconnected {
          namingPub := Connecting;
        }
        if !o.threadOk {
          return Platform;
        }
        publisher := Starting;
      } else {
        return Platform;
      }
      return Ok;
    }
  }

  /** A transport as created: dispatching, nothing connected, no peer known. */
  function Fresh(uuid: nat, endpoint: nat, retries: int): Transport {
    Transport(uuid, endpoint, retries, map[], {}, Unconnected, [], false, true, Absent, 0)
  }
}
