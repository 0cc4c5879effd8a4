/**
 * The refresh protocol of the driver, on values: one read per descriptor,
 * the input bank first and then the holding bank, stopping at the first read
 * that brings no words; then the decode pass over whatever words the banks
 * hold.
 */
module Refresh {
  import opened Wrappers
  import opened Modbus
  import opened Catalogue
  import opened Decoding

  /** The read loop's outcome: the banks' descriptors afterwards, whether
      every read succeeded, and how many reads were sent. */
  datatype Pass = Pass(regs: seq<Register>, ok: bool, attempts: nat)

  /** The read loop over descriptors in order. */
  function ReadLoop(regs: seq<Register>, replies: seq<Reply>): (p: Pass)
    ensures |p.regs| == |regs| && p.attempts <= |regs|
    ensures p.ok ==> p.attempts == |regs|
  {
    if regs == [] then Pass([], true, 0)
    else
      match ReplyAt(replies, 0)
      case None => Pass(regs, false, 1)
      case Some(ws) =>
        var rest := ReadLoop(regs[1..], Rest(replies));
        Pass([regs[0].(value := Words(ws))] + rest.regs, rest.ok, rest.attempts + 1)
  }

  /** How many of the first n replies, from the front, carry words. */
  function Succeeded(replies: seq<Reply>, n: nat): (k: nat)
    ensures k <= n
    ensures forall j :: 0 <= j < k ==> ReplyAt(replies, j).Some?
    ensures k < n ==> ReplyAt(replies, k).None?
  {
    if n == 0 || ReplyAt(replies, 0).None? then 0
    else
      var k := Succeeded(Rest(replies), n - 1);
      assert forall j :: 0 < j <= k ==> ReplyAt(Rest(replies), j - 1) == ReplyAt(replies, j);
      1 + k
  }

  /** Succeeded is the one count with its three properties. */
  lemma SucceededUnique(replies: seq<Reply>, n: nat, k: nat)
    requires k <= n
    requires forall j :: 0 <= j < k ==> ReplyAt(replies, j).Some?
    requires k < n ==> ReplyAt(replies, k).None?
    ensures Succeeded(replies, n) == k
  {
  }

  /** When the first n reads all succeed, the count over n + m reads is n
      plus the count over the m replies after them. */
  lemma SucceededAfter(replies: seq<Reply>, n: nat, m: nat)
    requires Succeeded(replies, n) == n
    ensures Succeeded(replies, n + m) == n + Succeeded(Drop(replies, n), m)
  {
    var rest := Drop(replies, n);
    var kb := Succeeded(rest, m);
    forall j | 0 <= j < n + kb ensures ReplyAt(replies, j).Some? {
      if j >= n {
        assert ReplyAt(rest, j - n) == ReplyAt(replies, j);
      }
    }
    if kb < m {
      assert ReplyAt(rest, kb) == ReplyAt(replies, n + kb);
    }
    SucceededUnique(replies, n + m, n + kb);
  }

  /** When one of the first n reads fails, reading more changes nothing. */
  lemma SucceededBefore(replies: seq<Reply>, n: nat, m: nat)
    requires Succeeded(replies, n) < n
    ensures Succeeded(replies, n + m) == Succeeded(replies, n)
  {
    SucceededUnique(replies, n + m, Succeeded(replies, n));
  }

  /** The descriptor a successful read leaves: the reply's words as 'value'. */
  function Store(reg: Register, reply: Reply): Register
    requires reply.Some?
  {
    reg.(value := Words(reply.value))
  }

  /**
   * The read loop, descriptor by descriptor: if read k is the first to fail,
   * descriptors 0..k-1 hold the new words, descriptor k and every later one
   * keeps its old value, k + 1 reads were sent, and the loop reports
   * failure; it reports success exactly when every read succeeded.
   */
  lemma {:induction false} ReadLoopAt(regs: seq<Register>, replies: seq<Reply>)
    ensures var p := ReadLoop(regs, replies);
            var k := Succeeded(replies, |regs|);
            && (p.ok <==> k == |regs|)
            && p.attempts == (if k < |regs| then k + 1 else k)
            && forall j :: 0 <= j < |regs| ==>
                 p.regs[j] == if j < k then Store(regs[j], ReplyAt(replies, j)) else regs[j]
  {
    if regs != [] && ReplyAt(replies, 0).Some? {
      ReadLoopAt(regs[1..], Rest(replies));
    }
  }

  /** A loop that has stored the first i replies and then either ran out of
      descriptors or met a missing reply at i has computed ReadLoop. */
  lemma ReadLoopFromSteps(regs: seq<Register>, replies: seq<Reply>, entries: seq<Register>, i: nat, ok: bool)
    requires i <= |regs| == |entries|
    requires forall j :: 0 <= j < i ==> ReplyAt(replies, j).Some?
    requires ok ==> i == |regs|
    requires !ok ==> i < |regs| && ReplyAt(replies, i).None?
    requires forall j :: 0 <= j < |regs| ==>
               entries[j] == if j < i then Store(regs[j], ReplyAt(replies, j)) else regs[j]
    ensures var p := ReadLoop(regs, replies);
            entries == p.regs && ok == p.ok && p.attempts == (if ok then i else i + 1)
  {
    ReadLoopAt(regs, replies);
    assert Succeeded(replies, |regs|) == i;
    var p := ReadLoop(regs, replies);
    assert forall j :: 0 <= j < |regs| ==> entries[j] == p.regs[j];
  }

  /**
   * Reading two banks in one loop is reading the first and, when every read
   * of it succeeded, the second with the replies that are left.
   */
  lemma {:induction false} ReadLoopSplitOk(a: seq<Register>, b: seq<Register>, replies: seq<Reply>)
    requires ReadLoop(a, replies).ok
    ensures var pb := ReadLoop(b, Drop(replies, |a|));
            ReadLoop(a + b, replies) == Pass(ReadLoop(a, replies).regs + pb.regs, pb.ok, |a| + pb.attempts)
  {
    if a == [] {
      assert a + b == b;
      assert Drop(replies, 0) == replies;
    } else {
      assert (a + b)[1..] == a[1..] + b;
      ReadLoopSplitOk(a[1..], b, Rest(replies));
      assert Drop(Rest(replies), |a| - 1) == Drop(replies, |a|);
    }
  }

  /** A failed read in the first bank ends the loop: the second bank is
      neither read nor changed. */
  lemma {:induction false} ReadLoopSplitFail(a: seq<Register>, b: seq<Register>, replies: seq<Reply>)
    requires !ReadLoop(a, replies).ok
    ensures var pa := ReadLoop(a, replies);
            ReadLoop(a + b, replies) == Pass(pa.regs + b, false, pa.attempts)
  {
    assert a != [];
    assert (a + b)[1..] == a[1..] + b;
    if ReplyAt(replies, 0).Some? {
      ReadLoopSplitFail(a[1..], b, Rest(replies));
    }
  }

  /** Reading only ever changes a descriptor's 'value'. */
  lemma {:induction false} ReadLoopKeepsLayout(regs: seq<Register>, replies: seq<Reply>)
    ensures Layout(ReadLoop(regs, replies).regs) == Layout(regs)
  {
    ReadLoopAt(regs, replies);
  }

  /** Reading again with the same replies changes nothing further. */
  lemma {:induction false} ReadLoopIdempotent(regs: seq<Register>, replies: seq<Reply>)
    ensures ReadLoop(ReadLoop(regs, replies).regs, replies) == ReadLoop(regs, replies)
  {
    if regs != [] && ReplyAt(replies, 0).Some? {
      ReadLoopIdempotent(regs[1..], Rest(replies));
    }
  }

  /** The requests a read loop sends for the given descriptors: function 0x03,
      one register at the descriptor's address, whatever its bank. */
  function ReadRequests(slave: int, regs: seq<Register>): (reqs: seq<Request>)
  {
    seq(|regs|, i requires 0 <= i < |regs| => ReadHoldingRegisters(slave, regs[i].addr, 1))
  }

  /** Reading the first m descriptors of b behind all of a sends a's requests
      and then those for the first m descriptors of b. */
  lemma ReadRequestsPrefix(slave: int, a: seq<Register>, b: seq<Register>, m: nat)
    requires m <= |b|
    ensures ReadRequests(slave, (a + b)[..|a| + m]) == ReadRequests(slave, a) + ReadRequests(slave, b[..m])
  {
    assert (a + b)[..|a| + m] == a + b[..m];
  }

  /** Everything the model tracks about a unit: both banks, the decoded
      fields, the replies still to come and the requests sent so far. */
  datatype UnitState = UnitState(
    input: seq<Register>,
    holding: seq<Register>,
    fields: map<Field, FieldValue>,
    replies: seq<Reply>,
    requests: seq<Request>)

  /** The new state after update(), and what update() returns or raises. */
  datatype Step = Step(state: UnitState, outcome: Result<bool, Fault>)

  /** update()'s two loops: the input bank and then the holding bank, read
      as one loop; the outcome is whether every read succeeded. */
  function ReadPhase(slave: int, s: UnitState): (r: Step)
    ensures |r.state.input| == |s.input| && |r.state.holding| == |s.holding|
    ensures |s.requests| <= |r.state.requests| && r.state.requests[..|s.requests|] == s.requests
    ensures r.outcome.Ok?
  {
    var all := s.input + s.holding;
    var p := ReadLoop(all, s.replies);
    Step(UnitState(p.regs[..|s.input|], p.regs[|s.input|..], s.fields, Drop(s.replies, p.attempts),
                   s.requests + ReadRequests(slave, all[..p.attempts])),
         Ok(p.ok))
  }

  /** update()'s two loops, one bank at a time: when every read of the input
      bank succeeds, the holding bank is read with the replies left over, and
      the loops report whether every read of the holding bank succeeded. */
  lemma ReadPhaseBothBanks(slave: int, s: UnitState)
    requires ReadLoop(s.input, s.replies).ok
    ensures var r := ReadPhase(slave, s);
            var pb := ReadLoop(s.holding, Drop(s.replies, |s.input|));
            && r.state.input == ReadLoop(s.input, s.replies).regs
            && r.state.holding == pb.regs
            && r.state.fields == s.fields
            && r.outcome == Ok(pb.ok)
  {
    var pa := ReadLoop(s.input, s.replies);
    var pb := ReadLoop(s.holding, Drop(s.replies, |s.input|));
    var p := ReadLoop(s.input + s.holding, s.replies);
    assert p.regs == pa.regs + pb.regs && p.ok == pb.ok by {
      ReadLoopSplitOk(s.input, s.holding, s.replies);
    }
    assert p.regs[..|s.input|] == pa.regs && p.regs[|s.input|..] == pb.regs;
  }

  /** The same, for the replies consumed: all of the input bank's, then those
      of the holding bank's loop. */
  lemma ReadPhaseBothBanksReplies(slave: int, s: UnitState)
    requires ReadLoop(s.input, s.replies).ok
    ensures var rest := Drop(s.replies, |s.input|);
            ReadPhase(slave, s).state.replies == Drop(rest, ReadLoop(s.holding, rest).attempts)
  {
    var rest := Drop(s.replies, |s.input|);
    var pb := ReadLoop(s.holding, rest);
    assert ReadLoop(s.input + s.holding, s.replies).attempts == |s.input| + pb.attempts by {
      ReadLoopSplitOk(s.input, s.holding, s.replies);
    }
    DropDrop(s.replies, |s.input|, pb.attempts);
  }

  /** The same, for the requests sent: one per input descriptor, then those of
      the holding bank's loop. */
  lemma ReadPhaseBothBanksRequests(slave: int, s: UnitState)
    requires ReadLoop(s.input, s.replies).ok
    ensures var pb := ReadLoop(s.holding, Drop(s.replies, |s.input|));
            ReadPhase(slave, s).state.requests
              == s.requests + ReadRequests(slave, s.input) + ReadRequests(slave, s.holding[..pb.attempts])
  {
    var all := s.input + s.holding;
    var pb := ReadLoop(s.holding, Drop(s.replies, |s.input|));
    var n := |s.input| + pb.attempts;
    assert ReadLoop(all, s.replies).attempts == n by {
      ReadLoopSplitOk(s.input, s.holding, s.replies);
    }
    var x := ReadRequests(slave, s.input);
    var y := ReadRequests(slave, s.holding[..pb.attempts]);
    assert ReadRequests(slave, all[..n]) == x + y by {
      ReadRequestsPrefix(slave, s.input, s.holding, pb.attempts);
    }
    assert s.requests + (x + y) == s.requests + x + y;
  }

  /** A failed read in the input bank ends update()'s loops: the holding bank
      is neither read nor changed, and the loops report failure. */
  lemma ReadPhaseInputFails(slave: int, s: UnitState)
    requires !ReadLoop(s.input, s.replies).ok
    ensures var pa := ReadLoop(s.input, s.replies);
            ReadPhase(slave, s) ==
              Step(s.(input := pa.regs, replies := Drop(s.replies, pa.attempts),
                      requests := s.requests + ReadRequests(slave, s.input[..pa.attempts])),
                   Ok(false))
  {
    var pa := ReadLoop(s.input, s.replies);
    ReadLoopSplitFail(s.input, s.holding, s.replies);
    assert (s.input + s.holding)[..pa.attempts] == s.input[..pa.attempts];
  }

  /** update(): the two loops, then the decode pass, whose fault (if any) is
      raised instead of the loops' result being returned. */
  function UpdateStep(slave: int, s: UnitState): (t: Step)
    ensures |t.state.input| == |s.input| && |t.state.holding| == |s.holding|
    ensures forall f :: f in s.fields ==> f in t.state.fields
  {
    var t := ReadPhase(slave, s);
    var d := DecodeFields(FieldOrder, s.fields, t.state.input, t.state.holding);
    Step(t.state.(fields := d.fields), if d.fault.Some? then Err(d.fault.value) else t.outcome)
  }

  /** The decode pass changes only the fields: update() leaves the banks,
      the replies and the requests as its two loops left them, and returns
      their result when decoding does not raise. */
  lemma UpdateStepReads(slave: int, s: UnitState)
    ensures var t := UpdateStep(slave, s);
            var r := ReadPhase(slave, s);
            && t.state == r.state.(fields := t.state.fields)
            && (t.outcome.Ok? ==> t.outcome == r.outcome)
  {
  }

  /** The input bank after the loops: read k of the combined order is the
      first to fail, and the descriptors before it hold the new words. */
  lemma ReadPhaseInput(slave: int, s: UnitState)
    ensures var t := ReadPhase(slave, s);
            var n := |s.input|;
            var k := Succeeded(s.replies, n + |s.holding|);
            && |t.state.input| == n
            && forall j :: 0 <= j < n ==>
                 t.state.input[j] == if j < k then Store(s.input[j], ReplyAt(s.replies, j)) else s.input[j]
  {
    var all := s.input + s.holding;
    ReadLoopAt(all, s.replies);
    assert forall j :: 0 <= j < |s.input| ==> all[j] == s.input[j];
  }

  /** The holding bank after the loops: its descriptor j is read k of the
      combined order, behind the whole input bank. */
  lemma ReadPhaseHolding(slave: int, s: UnitState)
    ensures var t := ReadPhase(slave, s);
            var n := |s.input|;
            var k := Succeeded(s.replies, n + |s.holding|);
            && |t.state.holding| == |s.holding|
            && forall j :: 0 <= j < |s.holding| ==>
                 t.state.holding[j] == if n + j < k then Store(s.holding[j], ReplyAt(s.replies, n + j)) else s.holding[j]
  {
    if ReadLoop(s.input, s.replies).ok {
      ReadPhaseHoldingRead(slave, s);
    } else {
      var n := |s.input|;
      ReadLoopAt(s.input, s.replies);
      ReadPhaseInputFails(slave, s);
      SucceededBefore(s.replies, n, |s.holding|);
    }
  }

  /** ReadPhaseHolding when every read of the input bank succeeds. */
  lemma ReadPhaseHoldingRead(slave: int, s: UnitState)
    requires ReadLoop(s.input, s.replies).ok
    ensures var t := ReadPhase(slave, s);
            var n := |s.input|;
            var k := Succeeded(s.replies, n + |s.holding|);
            && |t.state.holding| == |s.holding|
            && forall j :: 0 <= j < |s.holding| ==>
                 t.state.holding[j] == if n + j < k then Store(s.holding[j], ReplyAt(s.replies, n + j)) else s.holding[j]
  {
    var n := |s.input|;
    var m := |s.holding|;
    var rest := Drop(s.replies, n);
    var pb := ReadLoop(s.holding, rest);
    var kb := Succeeded(rest, m);
    var k := Succeeded(s.replies, n + m);
    assert k == n + kb by {
      ReadLoopAt(s.input, s.replies);
      SucceededAfter(s.replies, n, m);
    }
    assert ReadPhase(slave, s).state.holding == pb.regs by {
      ReadPhaseBothBanks(slave, s);
    }
    ReadLoopAt(s.holding, rest);
    forall j | 0 <= j < m
      ensures pb.regs[j] == if n + j < k then Store(s.holding[j], ReplyAt(s.replies, n + j)) else s.holding[j]
    {
      DropAt(s.replies, n, j);
    }
  }

  /**
   * update() on the two banks: if read k of the combined order (input bank,
   * then holding bank) is the first to fail, the descriptors before k hold
   * the new words and descriptor k and every later one, in either bank,
   * keeps its old value; a failure in the input bank leaves the whole holding
   * bank as it was. When update() returns, it returns True exactly when every
   * read succeeded.
   */
  lemma UpdatePartial(slave: int, s: UnitState)
    ensures var t := UpdateStep(slave, s);
            var n := |s.input|;
            var total := n + |s.holding|;
            var k := Succeeded(s.replies, total);
            && |t.state.input| == n && |t.state.holding| == |s.holding|
            && (forall j :: 0 <= j < n ==>
                  t.state.input[j] == if j < k then Store(s.input[j], ReplyAt(s.replies, j)) else s.input[j])
            && (forall j :: 0 <= j < |s.holding| ==>
                  t.state.holding[j] == if n + j < k then Store(s.holding[j], ReplyAt(s.replies, n + j)) else s.holding[j])
            && (k < n ==> t.state.holding == s.holding)
            && (k == total <==> forall j :: 0 <= j < total ==> ReplyAt(s.replies, j).Some?)
            && (t.outcome.Ok? ==> (t.outcome.value <==> k == total))
  {
    UpdateStepReads(slave, s);
    ReadPhaseInput(slave, s);
    ReadPhaseHolding(slave, s);
    ReadLoopAt(s.input + s.holding, s.replies);
  }

  /** update() changes only the 'value' of descriptors: both banks keep their
      keys, in order, and every address. */
  lemma UpdateKeepsLayout(slave: int, s: UnitState)
    ensures Layout(UpdateStep(slave, s).state.input) == Layout(s.input)
    ensures Layout(UpdateStep(slave, s).state.holding) == Layout(s.holding)
  {
    var all := s.input + s.holding;
    var p := ReadLoop(all, s.replies);
    ReadLoopKeepsLayout(all, s.replies);
    assert Layout(p.regs[..|s.input|]) == Layout(p.regs)[..|s.input|];
    assert Layout(p.regs[|s.input|..]) == Layout(p.regs)[|s.input|..];
    assert Layout(all)[..|s.input|] == Layout(s.input);
    assert Layout(all)[|s.input|..] == Layout(s.holding);
  }

  /** update() sends one Read Holding Registers request (function 0x03, one
      register) per descriptor it tries, in catalogue order, for the input
      bank as well, and consumes one reply for each. */
  lemma UpdateRequests(slave: int, s: UnitState)
    ensures var t := UpdateStep(slave, s);
            var all := s.input + s.holding;
            var k := Succeeded(s.replies, |all|);
            var tried := if k < |all| then k + 1 else k;
            var sent := t.state.requests[|s.requests|..];
            && t.state.requests[..|s.requests|] == s.requests
            && |sent| == tried
            && t.state.replies == Drop(s.replies, tried)
            && forall j :: 0 <= j < tried ==>
                 FunctionCode(sent[j]) == 0x03 && sent[j] == ReadHoldingRegisters(slave, all[j].addr, 1)
  {
    ReadLoopAt(s.input + s.holding, s.replies);
  }

  /** The decode pass after the reads: update() raises exactly when some
      field's register holds no word, and when it returns, every field is the
      decoding of its own register's first word. */
  lemma UpdateDecodes(slave: int, s: UnitState)
    ensures var t := UpdateStep(slave, s);
            var st := t.state;
            && (t.outcome.Ok? <==> forall f :: f in FieldOrder ==> SourceWord(f, st.input, st.holding).Ok?)
            && (t.outcome.Ok? ==> forall f: Field ::
                  f in st.fields && SourceWord(f, st.input, st.holding).Ok? &&
                  st.fields[f] == Decode(f, SourceWord(f, st.input, st.holding).value))
  {
    var t := UpdateStep(slave, s);
    var r := ReadPhase(slave, s);
    DecodeAll(s.fields, r.state.input, r.state.holding);
  }

  /** Two update() calls that receive the same replies leave the same banks,
      the same fields and the same result, and send the same requests. */
  lemma UpdateIdempotent(slave: int, s: UnitState)
    ensures var t1 := UpdateStep(slave, s);
            var t2 := UpdateStep(slave, t1.state.(replies := s.replies));
            && t2.outcome == t1.outcome
            && t2.state == t1.state.(requests := t1.state.requests + t1.state.requests[|s.requests|..])
  {
    var t1 := UpdateStep(slave, s);
    var r1 := ReadPhase(slave, s);
    assert t1.state == r1.state.(fields := t1.state.fields);
    ReadPhaseAgain(slave, s, t1.state.fields);
    DecodeFieldsIdempotent(FieldOrder, s.fields, t1.state.input, t1.state.holding);
  }

  /** The loops of a second update() with the same replies: the banks and
      the result are those of the first, and the same requests are sent
      again. */
  lemma ReadPhaseAgain(slave: int, s: UnitState, fields: map<Field, FieldValue>)
    ensures var r1 := ReadPhase(slave, s);
            var r2 := ReadPhase(slave, r1.state.(fields := fields, replies := s.replies));
            r2 == Step(r1.state.(fields := fields, requests := r1.state.requests + r1.state.requests[|s.requests|..]),
                       r1.outcome)
  {
    var all := s.input + s.holding;
    var p := ReadLoop(all, s.replies);
    var r1 := ReadPhase(slave, s);
    assert r1.state.input + r1.state.holding == p.regs;
    ReadLoopIdempotent(all, s.replies);
    ReadLoopKeepsLayout(all, s.replies);
    assert ReadRequests(slave, p.regs[..p.attempts]) == ReadRequests(slave, all[..p.attempts]) by {
      assert Layout(p.regs)[..p.attempts] == Layout(all)[..p.attempts];
      forall j | 0 <= j < p.attempts ensures p.regs[j].addr == all[j].addr {
        assert Layout(p.regs)[j] == Layout(all)[j];
      }
    }
  }

  /** A holding bank whose last register, REG_TC_CASCADE_SP_MAX, was never
      read cannot give SetpointTempMax a word. */
  lemma SetpointMaxUnread(input: seq<Register>, holding: seq<Register>)
    requires Layout(holding) == HoldingLayout
    requires holding[8].value == Unread
    ensures SourceWord(SetpointTempMax, input, holding) == Err(NeverRead(REG_TC_CASCADE_SP_MAX))
  {
    LayoutsWellFormed();
    LookupAt(holding, 8);
    assert holding[8].name == Layout(holding)[8].name;
  }

  /**
   * From the catalogue as the module creates it, update() never returns
   * False: a failed read leaves the last holding register, REG_TC_CASCADE_SP_MAX,
   * at its initial integer 0, and decoding SetpointTempMax from it raises.
   */
  lemma FirstUpdateNeverReturnsFalse(slave: int, s: UnitState)
    requires s.input == Initial(InputLayout) && s.holding == Initial(HoldingLayout)
    ensures UpdateStep(slave, s).outcome != Ok(false)
  {
    var t := UpdateStep(slave, s);
    var st := t.state;
    var total := |s.input| + |s.holding|;
    var k := Succeeded(s.replies, total);
    assert t.outcome.Ok? ==> (t.outcome.value <==> k == total) by {
      UpdatePartial(slave, s);
    }
    if k < total {
      assert st.holding[8] == s.holding[8] by {
        assert |s.input| == 10 && |s.holding| == 9;
        UpdatePartial(slave, s);
      }
      assert Layout(st.holding) == HoldingLayout by {
        UpdateKeepsLayout(slave, s);
      }
      SetpointMaxUnread(st.input, st.holding);
      assert t.outcome.Err? by {
        UpdateDecodes(slave, s);
        var i := FieldIndex(SetpointTempMax);
      }
    }
  }
}
