/** The command payload that the sender writes to the receiver, and how it
    progresses from one send to the next. The constants and element widths
    come from a header that is not part of this model, so they are carried
    in a Config value. */
module Command {

  /** The sender's constants: UART_DATA_MAX_LEN, UART_DATA_VALID_LEN and
      UART_MSG_TEST_SEQ, and the number of values of the seq field and of a
      data element (2^width of their unsigned types). */
  datatype Config = Config(
    maxLen: nat,
    validLen: nat,
    testSeq: nat,
    seqModulus: nat,
    dataModulus: nat)

  predicate ValidConfig(c: Config)
  {
    c.seqModulus > 0 && c.dataModulus > 0 && c.testSeq < c.seqModulus
  }

  /** UartDataParam: sequence number, declared valid length, data bytes. */
  datatype Payload = Payload(seqNum: nat, validLen: nat, data: seq<nat>)

  /** How the reply to one send turned out within the wait period. */
  datatype Reply = Ready(result: int) | Timeout

  /** The payload as built before the first send: the test sequence number,
      the valid length, and element i holding i (narrowed to the element type). */
  function InitialPayload(c: Config): Payload
    requires ValidConfig(c)
  {
    Payload(c.testSeq, c.validLen, seq(c.maxLen, i => i % c.dataModulus))
  }

  /** The in-place update done at the top of every loop iteration: the
      sequence number and every data element go up by one, wrapping at
      their type's width. */
  function Step(c: Config, p: Payload): Payload
    requires ValidConfig(c)
  {
    Payload((p.seqNum + 1) % c.seqModulus, p.validLen,
            seq(|p.data|, i requires 0 <= i < |p.data| => (p.data[i] + 1) % c.dataModulus))
  }

  /** The payload after k loop iterations. */
  function PayloadAfter(c: Config, k: nat): Payload
    requires ValidConfig(c)
  {
    if k == 0 then InitialPayload(c) else Step(c, PayloadAfter(c, k - 1))
  }

  /** The payload the k-th send carries (k counted from 1) in closed form:
      seq is the test sequence number plus k and element i is i + k, both
      modulo their widths, and the valid length and data length never change. */
  lemma {:induction false} PayloadAfterClosedForm(c: Config, k: nat)
    requires ValidConfig(c)
    ensures PayloadAfter(c, k).seqNum == (c.testSeq + k) % c.seqModulus
    ensures PayloadAfter(c, k).validLen == c.validLen
    ensures |PayloadAfter(c, k).data| == c.maxLen
    ensures forall i :: 0 <= i < c.maxLen ==> PayloadAfter(c, k).data[i] == (i + k) % c.dataModulus
  {
    if k > 0 {
      PayloadAfterClosedForm(c, k - 1);
      var p := PayloadAfter(c, k);
      ModSucc(c.testSeq + k - 1, c.seqModulus);
      forall i | 0 <= i < c.maxLen
        ensures p.data[i] == (i + k) % c.dataModulus
      {
        ModSucc(i + k - 1, c.dataModulus);
      }
    }
  }

  /** Adding one after reducing is the same as reducing after adding one. */
  lemma ModSucc(a: nat, m: nat)
    requires m > 0
    ensures (a % m + 1) % m == (a + 1) % m
  {
    var q, r := a / m, a % m;
    DivModParts(a, m);
    if r + 1 == m {
      MulSucc(q, m);
      DivModUnique(a + 1, m, q + 1, 0);
      assert m % m == 0 by { DivModUnique(m, m, 1, 0); }
    } else {
      DivModUnique(a + 1, m, q, r + 1);
      DivModUnique(r + 1, m, 0, r + 1);
    }
  }

  lemma DivModParts(a: nat, m: nat)
    requires m > 0
    ensures a == (a / m) * m + a % m && 0 <= a % m < m
  {
  }

  lemma MulSucc(q: int, m: int)
    ensures (q + 1) * m == q * m + m
  {
  }

  /** Quotient and remainder are the only pair that rebuilds x. */
  lemma DivModUnique(x: nat, m: nat, q: int, r: int)
    requires m > 0 && x == q * m + r && 0 <= r < m
    ensures x % m == r
  {
    var q', r' := x / m, x % m;
    assert (q - q') * m == r' - r;
    if q > q' {
      MulAtLeast(q - q', m);
    } else if q < q' {
      MulAtLeast(q' - q, m);
    }
  }

  lemma MulAtLeast(d: int, m: nat)
    requires d >= 1
    ensures d * m >= m
  {
    assert d * m == (d - 1) * m + m;
  }

  /** The result codes received, in order: one per Ready reply, none for a timeout. */
  function ReadyResults(replies: seq<Reply>): seq<int>
  {
    if replies == [] then []
    else ReadyResults(replies[..|replies| - 1])
         + (match replies[|replies| - 1]
            case Ready(result) => [result]
            case Timeout => [])
  }

  /** There are never more result codes than sends; a run in which every
      reply times out receives no result at all, and one in which every reply
      is ready receives the result of every reply, in order. */
  lemma {:induction false} ReadyResultsBound(replies: seq<Reply>)
    ensures |ReadyResults(replies)| <= |replies|
    ensures (forall j :: 0 <= j < |replies| ==> replies[j] == Timeout) ==> ReadyResults(replies) == []
    ensures (forall j :: 0 <= j < |replies| ==> replies[j].Ready?) ==>
      ReadyResults(replies) == seq(|replies|, j requires 0 <= j < |replies| => replies[j].result)
  {
    if replies != [] {
      var init := replies[..|replies| - 1];
      ReadyResultsBound(init);
      assert forall j :: 0 <= j < |init| ==> init[j] == replies[j];
    }
  }
}
