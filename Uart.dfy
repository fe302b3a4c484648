/** The receiver client: binding the proxy when the service shows up,
    draining the event cache into decoded BESTPOS frames, and the sender
    loop that writes the test payload. The service runtime (discovery,
    transport, futures, threads, the logger) is not part of this model: a
    proxy is a handle plus the event cache the runtime fills, and each
    reply outcome is an input. */
module Uart {
  import opened Bytes
  import opened BestPos
  import opened Command

  /** An instance handle as the discovery callback hands it over. */
  datatype Handle = Handle(instanceId: nat)

  /** One cached event sample: its buffer and the declared valid length. */
  datatype Sample = Sample(data: seq<U8>, validLen: nat)

  datatype Subscription = Unsubscribed | NewestN(cacheSize: nat)

  /** The proxy built from one instance handle, with the state of its data event. */
  class UartProxy {
    const handle: Handle
    /** The samples the runtime has cached for the data event, oldest first. */
    var cache: seq<Sample>
    var receiveHandlerSet: bool
    var subscription: Subscription

    constructor (h: Handle)
      ensures handle == h && cache == [] && !receiveHandlerSet && subscription == Unsubscribed
    {
      handle := h;
      cache := [];
      receiveHandlerSet := false;
      subscription := Unsubscribed;
    }
  }

  class UartDataReceive {
    /** SUBSCRIBE_NUM: the cache depth asked for when subscribing. */
    const subscribeNum: nat
    /** m_uartProxy; null until the first non-empty availability callback. */
    var proxy: UartProxy?
    /** Whether the sender thread (m_uartMethodThread) has been started. */
    var senderStarted: bool
    /** How many proxies have been created so far. */
    ghost var proxiesCreated: nat

    /** The binding invariant: the sender runs exactly when a proxy exists,
        at most one proxy was ever created, and a bound proxy has its
        receive handler set and is subscribed with newest-N of depth SUBSCRIBE_NUM. */
    ghost predicate Valid()
      reads this, proxy
    {
      (proxy == null <==> !senderStarted)
      && proxiesCreated == (if proxy == null then 0 else 1)
      && (proxy != null ==> proxy.receiveHandlerSet && proxy.subscription == NewestN(subscribeNum))
    }

    constructor (subscribeNum: nat)
      ensures Valid() && this.subscribeNum == subscribeNum
      ensures proxy == null && !senderStarted
    {
      this.subscribeNum := subscribeNum;
      proxy := null;
      senderStarted := false;
      proxiesCreated := 0;
    }

    /** Check-then-create on the proxy slot. */
    method ServiceAvailabilityCallback(handles: seq<Handle>)
      requires Valid()
      modifies this
      ensures Valid()
      ensures old(proxy) != null ==> proxy == old(proxy) && senderStarted == old(senderStarted)
      ensures |handles| == 0 ==> proxy == old(proxy) && senderStarted == old(senderStarted)
      ensures old(proxy) == null && |handles| > 0 ==>
        proxy != null && fresh(proxy) && proxy.handle == handles[0] && proxy.cache == [] && senderStarted
      ensures (proxy != old(proxy)) <==> (senderStarted && !old(senderStarted))
    {
      if |handles| > 0 {
        if proxy == null {
          var p := new UartProxy(handles[0]);
          p.receiveHandlerSet := true;
          p.subscription := NewestN(subscribeNum);
          proxy := p;
          proxiesCreated := proxiesCreated + 1;
          senderStarted := true;
        }
      }
    }

    /** Reads every cached sample once, in cache order, as a BESTPOS
        header and record, then empties the cache. */
    method UartDataEventReceived() returns (frames: seq<Frame>)
      requires Valid() && proxy != null
      requires forall j :: 0 <= j < |proxy.cache| ==> Readable(proxy.cache[j].data)
      modifies proxy
      ensures Valid() && proxy.cache == []
      ensures |frames| == |old(proxy.cache)|
      ensures forall j :: 0 <= j < |frames| ==> frames[j] == DecodeFrame(old(proxy.cache)[j].data)
    {
      var samples := proxy.cache;
      frames := [];
      for j := 0 to |samples|
        invariant |frames| == j
        invariant forall i :: 0 <= i < j ==> frames[i] == DecodeFrame(samples[i].data)
      {
        var data := samples[j].data;
        var header := DecodeHeader(data);
        var msg := DecodeMsgAt(data, header.header_len);
        frames := frames + [Frame(header, msg)];
      }
      proxy.cache := [];
    }

    /** The sender loop, run for one iteration per reply outcome. With no
        proxy it sends nothing. Otherwise every iteration advances the
        payload before sending, whether the previous reply came back or
        timed out, and only Ready replies deliver a result code. */
    method UartSetData(c: Config, replies: seq<Reply>) returns (sent: seq<Payload>, results: seq<int>)
      requires ValidConfig(c)
      ensures proxy == null ==> sent == [] && results == []
      ensures proxy != null ==> |sent| == |replies| && results == ReadyResults(replies)
      ensures proxy != null ==> forall j :: 0 <= j < |sent| ==> sent[j] == PayloadAfter(c, j + 1)
    {
      sent, results := [], [];
      if proxy == null {
        return;
      }
      var seqNum := c.testSeq;
      var data := new nat[c.maxLen];
      for i := 0 to c.maxLen
        invariant data[..i] == InitialPayload(c).data[..i]
      {
        data[i] := i % c.dataModulus;
      }
      assert data[..] == InitialPayload(c).data;
      var k := 0;
      while k < |replies|
        invariant 0 <= k <= |replies| && |sent| == k
        invariant seqNum == PayloadAfter(c, k).seqNum && data[..] == PayloadAfter(c, k).data
        invariant forall j :: 0 <= j < k ==> sent[j] == PayloadAfter(c, j + 1)
        invariant results == ReadyResults(replies[..k])
      {
        ghost var next := PayloadAfter(c, k + 1);
        PayloadAfterClosedForm(c, k);
        seqNum := (seqNum + 1) % c.seqModulus;
        IncrementEach(data, c.dataModulus);
        assert data[..] == next.data;
        var param := Payload(seqNum, c.validLen, data[..]);
        assert param == next;
        sent := sent + [param];
        assert replies[..k + 1][..k] == replies[..k];
        k := k + 1;
        match replies[k - 1]
        case Timeout =>
          continue;
        case Ready(result) =>
          results := results + [result];
      }
      assert replies[..k] == replies;
    }
  }

  /** The in-place data update of one sender iteration: every element goes
      up by one, wrapping at the element type's width. */
  method IncrementEach(data: array<nat>, modulus: nat)
    requires modulus > 0
    modifies data
    ensures data[..] == seq(data.Length, i requires 0 <= i < data.Length => (old(data[i]) + 1) % modulus)
  {
    for i := 0 to data.Length
      invariant forall t :: 0 <= t < i ==> data[t] == (old(data[t]) + 1) % modulus
      invariant forall t :: i <= t < data.Length ==> data[t] == old(data[t])
    {
      data[i] := (data[i] + 1) % modulus;
    }
  }

  /** Two availability callbacks in a row bind one proxy, from the first
      non-empty handle list, and create it once. */
  method BindTwice(subscribeNum: nat, first: seq<Handle>, second: seq<Handle>)
    returns (bound: Handle, ghost created: nat)
    requires |first| > 0
    ensures bound == first[0] && created == 1
  {
    var client := new UartDataReceive(subscribeNum);
    client.ServiceAvailabilityCallback(first);
    client.ServiceAvailabilityCallback(second);
    bound := client.proxy.handle;
    created := client.proxiesCreated;
  }
}
