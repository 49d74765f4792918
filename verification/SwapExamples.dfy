// Concrete runs of the TAO settlement that go wrong.

module SwapExamples {

  import opened Prelude
  import opened JsText
  import opened TaoHtlc
  import opened TimelockPolicy
  import opened TaoEvmSettlementProvider
  import opened LockMessages
  import opened SwapRuns
  import opened SwapTools

  // 10 units locked to hash 5, against 1000 sats.
  const ID := SwapId(1, 2, 10, 10_000, 5, 0)
  const TERMS := Terms("10", Some(AddressText(2, 0)), Some(AddressText(1, 0)), Some(10_000), 1_000)
  const INVOICE := InvoiceBody(Present(5), Some(9_000))
  const ESCROW := EscrowBody(Present(ID), Present(5), "10", AddressText(2, 0), AddressText(1, 0), Some(10_000), AddressText(9, 0))

  function ExampleSetup(): Setup {
    Setup(Config(9, 600), (b: Bytes) => if b == [] then 0 else b[0], 0, 600, 600, 60, map[],
          Chain(map[], map[1 := 10], 0), map[0 := 2_000_000], 1)
  }

  lemma ExampleIsFaithful()
    ensures var s := ExampleSetup(); Start(s) && Run(s, [LockOf(ID)]) == AfterLock(Init(s), ID)
    ensures Faithful(ExampleSetup(), AfterLock(Init(ExampleSetup()), ID), ID, TERMS, INVOICE, ESCROW)
  {
    var s := ExampleSetup();
    RunAppend(s, [], LockOf(ID));
    LockWorld(s, Init(s), ID);
    assert [] + [LockOf(ID)] == [LockOf(ID)];
    assert Amounts(s.chain.swaps) == map[];
    assert Decimal(10) == "10";
  }

  // The swap locked, and an invoice string for some hash and amount paid for it.
  function ExampleRun(hash: Hash, msat: nat): seq<Event> {
    [LockOf(ID)] + [VerifyDeal(0, TERMS, INVOICE, ESCROW, Bolt11(hash, msat, 3), None)] + [PayDeal(0, seq(32, _ => hash), true)]
  }

  lemma ExamplePays(hash: Hash, msat: nat)
    requires msat <= 2_000_000
    ensures var s := ExampleSetup(); var w := Run(s, ExampleRun(hash, msat));
      && Start(s) && |w.payments| == 1 && w.log == [Locked(ID)] && Unclaimed(w, 0)
      && w.payments[0].deal == Deal(0, TERMS, ID, 5, Bolt11(hash, msat, 3), 1, 0)
      && (UnopenedAt(s, w, 0) <==> hash != 5) && (MispaidAt(w, 0) <==> msat != 1_000_000)
  {
    var s, bolt, preimage := ExampleSetup(), Bolt11(hash, msat, 3), seq(32, _ => hash);
    ExampleIsFaithful();
    var w := AfterLock(Init(s), ID);
    UncomparedPayment(s, w, 0, ID, TERMS, INVOICE, ESCROW, bolt, preimage);
    UncomparedInvoice(s, [LockOf(ID)], 0, ID, TERMS, INVOICE, ESCROW, bolt, preimage);
    RunAppend(s, [LockOf(ID)], VerifyDeal(0, TERMS, INVOICE, ESCROW, bolt, None));
    RunAppend(s, [LockOf(ID)] + [VerifyDeal(0, TERMS, INVOICE, ESCROW, bolt, None)], PayDeal(0, preimage, true));
  }

  // Paid for hash 7, and nothing opens; and 600 sats paid instead of 1000.
  lemma UncomparedInvoiceExamples()
    ensures UnopenedAt(ExampleSetup(), Run(ExampleSetup(), ExampleRun(7, 1_000_000)), 0)
    ensures MispaidAt(Run(ExampleSetup(), ExampleRun(5, 600_000)), 0)
    ensures !UnopenedAt(ExampleSetup(), Run(ExampleSetup(), ExampleRun(5, 600_000)), 0)
  {
    ExamplePays(7, 1_000_000);
    ExamplePays(5, 600_000);
  }

  // Everything paid as agreed; then one lock message that names hash 6, and the coins go back.
  lemma LateMessageExample()
    ensures var s := ExampleSetup(); var es := ExampleRun(5, 1_000_000); var before := Run(s, es);
      |before.payments| == 1 &&
      var p := before.payments[0]; var w := Run(s, es + Late(LockMsg(0, Present(6), false, Missing), p));
      && p.deal.bolt == Bolt11(5, 1_000_000, 3) && p.deal.hash == 5
      && Settled(w, p.deal.bolt) && w.log == [Locked(ID), Refunded(ID)]
  {
    var s, es := ExampleSetup(), ExampleRun(5, 1_000_000);
    ExamplePays(5, 1_000_000);
    LateMessageCostsPayer(s, es, 0, LockMsg(0, Present(6), false, Missing));
  }
}
