// The gate before a maker locks funds: has the payer confirmed a Lightning route for the latest invoice?

module EscrowGate {

  import EventLog
  import opened JsText

  datatype Kind = Terms | LnInvoice | Status | Other

  // The fields the scans read, trimmed and lower-cased as they read them; a message that is not an
  // object has kind Other.
  datatype Entry = Entry(seqNo: nat, channel: string, tradeId: string, kind: Kind, signer: string,
                         lnPayerPeer: string, paymentHash: string, state: string, note: string)

  datatype Blocked = MissingTerms | MissingPayer | MissingInvoice | WaitingForOk | RouteFailed

  datatype Outcome = Open(terms: Entry) | Shut(why: Blocked)

  // One swap: its channel, its trade and the payment hash the funds would be locked to.
  datatype Swap = Swap(channel: string, tradeId: string, paymentHash: string)

  const OK_PREFIX := "ln_route_precheck_ok"
  const FAIL_PREFIX := "ln_route_precheck_fail"

  predicate IsTerms(w: Swap, e: Entry) {
    e.channel == w.channel && e.tradeId == w.tradeId && e.kind.Terms?
  }

  predicate IsInvoice(w: Swap, e: Entry) {
    && e.channel == w.channel && e.tradeId == w.tradeId && e.kind.LnInvoice?
    && e.paymentHash != "" && e.paymentHash == w.paymentHash
  }

  predicate IsReport(w: Swap, payer: string, e: Entry) {
    && e.channel == w.channel && e.tradeId == w.tradeId && e.kind.Status?
    && e.signer != "" && e.signer == payer && e.state == "accepted" && e.note != ""
  }

  predicate IsOk(w: Swap, payer: string, e: Entry) {
    IsReport(w, payer, e) && OK_PREFIX <= e.note
  }

  predicate IsFail(w: Swap, payer: string, e: Entry) {
    IsReport(w, payer, e) && !(OK_PREFIX <= e.note) && FAIL_PREFIX <= e.note
  }

  // The log as _scLogAppend keeps it.
  ghost predicate Numbered(log: seq<Entry>) {
    && (forall i | 0 <= i < |log| :: log[i].seqNo >= 1)
    && (forall i, j | 0 <= i < j < |log| :: log[i].seqNo < log[j].seqNo)
  }

  lemma KeptLogIsNumbered(max: nat, log: seq<EventLog.Logged>, logged: seq<EventLog.Event>)
    requires EventLog.LogKept(max, log, logged)
    ensures forall i | 0 <= i < |log| :: log[i].seqNo >= 1
    ensures forall i, j | 0 <= i < j < |log| :: log[i].seqNo < log[j].seqNo
  {
    forall i, j | 0 <= i < j < |log| ensures log[i].seqNo < log[j].seqNo {
      assert log[i].seqNo == |logged| - |log| + i + 1;
      assert log[j].seqNo == |logged| - |log| + j + 1;
    }
  }

  // ---------------------------------------------------------------- what the gate is for

  // t is the latest terms of the swap.
  ghost predicate LatestTerms(w: Swap, log: seq<Entry>, t: int) {
    0 <= t < |log| && IsTerms(w, log[t]) && forall i | t < i < |log| :: !IsTerms(w, log[i])
  }

  ghost predicate LatestInvoice(w: Swap, log: seq<Entry>, v: int) {
    0 <= v < |log| && IsInvoice(w, log[v]) && forall i | v < i < |log| :: !IsInvoice(w, log[i])
  }

  // After the latest invoice the payer said OK, and has not said FAIL since.
  ghost predicate Confirmed(w: Swap, payer: string, log: seq<Entry>, v: int) {
    0 <= v < |log| && exists o | v < o < |log| :: IsOk(w, payer, log[o]) && forall f | o < f < |log| :: !IsFail(w, payer, log[f])
  }

  ghost predicate MayLock(w: Swap, log: seq<Entry>, t: int, v: int) {
    LatestTerms(w, log, t) && IsHex64(log[t].lnPayerPeer) && LatestInvoice(w, log, v) && Confirmed(w, log[t].lnPayerPeer, log, v)
  }

  ghost predicate GateOpen(w: Swap, log: seq<Entry>) {
    exists t, v :: MayLock(w, log, t, v)
  }

  ghost predicate SomeTerms(w: Swap, log: seq<Entry>) {
    exists t | 0 <= t < |log| :: IsTerms(w, log[t])
  }

  ghost predicate SomeInvoice(w: Swap, log: seq<Entry>) {
    exists v | 0 <= v < |log| :: IsInvoice(w, log[v])
  }

  // What each outcome means.
  ghost predicate Meaning(w: Swap, log: seq<Entry>, r: Outcome) {
    match r
    case Open(terms) => exists t, v :: MayLock(w, log, t, v) && terms == log[t]
    case Shut(MissingTerms) => !SomeTerms(w, log)
    case Shut(MissingPayer) => exists t :: LatestTerms(w, log, t) && !IsHex64(log[t].lnPayerPeer)
    case Shut(MissingInvoice) => !SomeInvoice(w, log)
    case Shut(WaitingForOk) =>
      exists t, v :: LatestTerms(w, log, t) && LatestInvoice(w, log, v) &&
        forall o | v < o < |log| :: !IsOk(w, log[t].lnPayerPeer, log[o])
    case Shut(RouteFailed) =>
      exists t, v :: LatestTerms(w, log, t) && LatestInvoice(w, log, v) && !Confirmed(w, log[t].lnPayerPeer, log, v) &&
        exists o | v < o < |log| :: IsOk(w, log[t].lnPayerPeer, log[o])
  }

  // The first scan: positions of the latest terms and the latest matching invoice, or -1.
  method ScanTermsAndInvoice(w: Swap, log: seq<Entry>) returns (t: int, v: int)
    ensures if t >= 0 then LatestTerms(w, log, t) else !SomeTerms(w, log)
    ensures if v >= 0 then LatestInvoice(w, log, v) else !SomeInvoice(w, log)
  {
    t, v := -1, -1;
    var i := |log| - 1;
    while i >= 0
      invariant -1 <= i < |log|
      invariant if t >= 0 then i < t && LatestTerms(w, log, t) else forall k | i < k < |log| :: !IsTerms(w, log[k])
      invariant if v >= 0 then i < v && LatestInvoice(w, log, v) else forall k | i < k < |log| :: !IsInvoice(w, log[k])
    {
      var e := log[i];
      if e.channel == w.channel && e.tradeId == w.tradeId {
        if t < 0 && e.kind.Terms? { t := i; }
        if v < 0 && e.kind.LnInvoice? && e.paymentHash != "" && e.paymentHash == w.paymentHash { v := i; }
        if t >= 0 && v >= 0 { break; }
      }
      i := i - 1;
    }
  }

  ghost predicate LatestOk(w: Swap, payer: string, log: seq<Entry>, v: int, okSeq: nat) {
    0 <= v < |log| &&
    if okSeq == 0 then forall o | v < o < |log| :: !IsOk(w, payer, log[o])
    else exists o | v < o < |log| ::
      log[o].seqNo == okSeq && IsOk(w, payer, log[o]) && forall k | o < k < |log| :: !IsOk(w, payer, log[k])
  }

  ghost predicate LatestFail(w: Swap, payer: string, log: seq<Entry>, v: int, failSeq: nat) {
    0 <= v < |log| &&
    if failSeq == 0 then forall o | v < o < |log| :: !IsFail(w, payer, log[o])
    else exists o | v < o < |log| ::
      log[o].seqNo == failSeq && IsFail(w, payer, log[o]) && forall k | o < k < |log| :: !IsFail(w, payer, log[k])
  }

  // The second scan, down to the invoice: the highest sequence numbers of OK and FAIL notes, or 0.
  method ScanReports(w: Swap, payer: string, log: seq<Entry>, v: int) returns (okSeq: nat, failSeq: nat)
    requires Numbered(log) && 0 <= v < |log|
    ensures LatestOk(w, payer, log, v, okSeq) && LatestFail(w, payer, log, v, failSeq)
  {
    okSeq, failSeq := 0, 0;
    var i := |log| - 1;
    while i >= 0
      invariant v <= i < |log|
      invariant LatestOk(w, payer, log, i, okSeq) && LatestFail(w, payer, log, i, failSeq)
    {
      var e := log[i];
      if e.seqNo <= log[v].seqNo { break; }
      if e.channel == w.channel && e.tradeId == w.tradeId && e.kind.Status? && e.signer != "" && e.signer == payer &&
         e.state == "accepted" && e.note != ""
      {
        if OK_PREFIX <= e.note {
          if e.seqNo > okSeq { okSeq := e.seqNo; }
        } else if FAIL_PREFIX <= e.note {
          if e.seqNo > failSeq { failSeq := e.seqNo; }
        }
      }
      i := i - 1;
    }
  }

  method CheckGate(w: Swap, log: seq<Entry>) returns (r: Outcome)
    requires Numbered(log)
    ensures Meaning(w, log, r)
    ensures r.Open? <==> GateOpen(w, log)
  {
    var t, v := ScanTermsAndInvoice(w, log);
    if t < 0 { return Shut(MissingTerms); }
    var payer := log[t].lnPayerPeer;
    if !IsHex64(payer) { return Shut(MissingPayer); }
    if v < 0 { return Shut(MissingInvoice); }
    var okSeq, failSeq := ScanReports(w, payer, log, v);
    if okSeq < 1 { return Shut(WaitingForOk); }
    OkBeatsFail(w, payer, log, v, okSeq, failSeq);
    if failSeq > okSeq { return Shut(RouteFailed); }
    assert MayLock(w, log, t, v);
    r := Open(log[t]);
  }

  lemma OkBeatsFail(w: Swap, payer: string, log: seq<Entry>, v: int, okSeq: nat, failSeq: nat)
    requires Numbered(log) && 0 <= v < |log|
    requires LatestOk(w, payer, log, v, okSeq) && LatestFail(w, payer, log, v, failSeq) && okSeq >= 1
    ensures Confirmed(w, payer, log, v) <==> failSeq <= okSeq
  {
  }

  // ---------------------------------------------------------------- what one more message does

  // payer is the one named by the latest terms.
  ghost predicate PayerIs(w: Swap, log: seq<Entry>, payer: string) {
    exists t :: LatestTerms(w, log, t) && log[t].lnPayerPeer == payer
  }

  lemma LatestKept(w: Swap, log: seq<Entry>, e: Entry)
    ensures forall t :: LatestTerms(w, log + [e], t) <==> if IsTerms(w, e) then t == |log| else LatestTerms(w, log, t)
    ensures forall v :: LatestInvoice(w, log + [e], v) <==> if IsInvoice(w, e) then v == |log| else LatestInvoice(w, log, v)
  {
    var all := log + [e];
    assert all[|log|] == e;
    forall t ensures LatestTerms(w, all, t) <==> if IsTerms(w, e) then t == |log| else LatestTerms(w, log, t) {
      if 0 <= t < |log| {
        assert forall i | 0 <= i < |log| :: IsTerms(w, all[i]) == IsTerms(w, log[i]);
        assert IsTerms(w, all[|log|]) == IsTerms(w, e);
      }
    }
    forall v ensures LatestInvoice(w, all, v) <==> if IsInvoice(w, e) then v == |log| else LatestInvoice(w, log, v) {
      if 0 <= v < |log| {
        assert forall i | 0 <= i < |log| :: IsInvoice(w, all[i]) == IsInvoice(w, log[i]);
        assert IsInvoice(w, all[|log|]) == IsInvoice(w, e);
      }
    }
  }

  lemma ConfirmedSnoc(w: Swap, payer: string, log: seq<Entry>, e: Entry, v: int)
    requires 0 <= v < |log|
    ensures Confirmed(w, payer, log + [e], v) <==>
      IsOk(w, payer, e) || (Confirmed(w, payer, log, v) && !IsFail(w, payer, e))
  {
    var all := log + [e];
    assert all[|log|] == e;
    if Confirmed(w, payer, log, v) && !IsFail(w, payer, e) {
      var o :| v < o < |log| && IsOk(w, payer, log[o]) && forall f | o < f < |log| :: !IsFail(w, payer, log[f]);
      assert IsOk(w, payer, all[o]);
      forall f | o < f < |all| ensures !IsFail(w, payer, all[f]) { if f < |log| { assert all[f] == log[f]; } }
    }
    if Confirmed(w, payer, all, v) && !IsOk(w, payer, e) {
      var o :| v < o < |all| && IsOk(w, payer, all[o]) && forall f | o < f < |all| :: !IsFail(w, payer, all[f]);
      assert IsOk(w, payer, log[o]);
      assert !IsFail(w, payer, all[|log|]);
      forall f | o < f < |log| ensures !IsFail(w, payer, log[f]) { assert all[f] == log[f]; }
    }
  }

  // A posted invoice shuts the gate until the payer confirms it anew.
  lemma InvoiceShuts(w: Swap, log: seq<Entry>, e: Entry)
    requires IsInvoice(w, e)
    ensures !GateOpen(w, log + [e])
  {
    LatestKept(w, log, e);
  }

  // A note of the payer decides on its own: OK opens, FAIL shuts.
  lemma ReportDecides(w: Swap, log: seq<Entry>, e: Entry, payer: string)
    requires PayerIs(w, log, payer) && IsHex64(payer) && (exists v :: LatestInvoice(w, log, v))
    requires IsOk(w, payer, e) || IsFail(w, payer, e)
    ensures GateOpen(w, log + [e]) <==> IsOk(w, payer, e)
  {
    LatestKept(w, log, e);
    var t :| LatestTerms(w, log, t) && log[t].lnPayerPeer == payer;
    var v :| LatestInvoice(w, log, v);
    ConfirmedSnoc(w, payer, log, e, v);
    if IsOk(w, payer, e) { assert MayLock(w, log + [e], t, v); }
  }

  // Any other message leaves it as it was, unless it is new terms naming another payer.
  lemma OthersLeaveIt(w: Swap, log: seq<Entry>, e: Entry, payer: string)
    requires PayerIs(w, log, payer) && (IsTerms(w, e) ==> e.lnPayerPeer == payer)
    requires !IsInvoice(w, e) && !IsOk(w, payer, e) && !IsFail(w, payer, e)
    ensures GateOpen(w, log + [e]) <==> GateOpen(w, log)
  {
    LatestKept(w, log, e);
    var t :| LatestTerms(w, log, t) && log[t].lnPayerPeer == payer;
    var all, t' := log + [e], if IsTerms(w, e) then |log| else t;
    assert LatestTerms(w, all, t') && all[t'].lnPayerPeer == payer;
    forall v | LatestInvoice(w, log, v) ensures MayLock(w, all, t', v) <==> MayLock(w, log, t, v) {
      ConfirmedSnoc(w, payer, log, e, v);
    }
  }
}
