/**
 How the totals of a bill of materials split over its licenses: documents and
 tokens always do, bytes only where no shard is under several licenses.
 */
module LicensePartition {
  import opened Prelude
  import opened Measures
  import opened BomTotals
  import opened BomBuilders

  function ChargeSum(charges: seq<Charge>): Measures {
    if charges == [] then Zero else Plus(ChargeSum(charges[..|charges| - 1]), charges[|charges| - 1].1)
  }

  lemma {:induction false} AddSum(m: map<string, Measures>, charges: seq<Charge>)
    ensures MeasureSum(Add(m, charges)) == Plus(MeasureSum(m), ChargeSum(charges))
  {
    if charges != [] {
      var front, last := charges[..|charges| - 1], charges[|charges| - 1];
      AddSum(m, front);
      AddAtSum(Add(m, front), last.0, last.1);
    }
  }

  lemma {:induction false} SharesSum(p: ShardPin, licenses: seq<string>)
    ensures ChargeSum(Shares(p, licenses)).docs == SumOver(p.usage, licenses).docs
    ensures ChargeSum(Shares(p, licenses)).tokens == SumOver(p.usage, licenses).tokens
  {
    if licenses != [] {
      var n := |licenses| - 1;
      SharesSum(p, licenses[..n]);
      assert licenses[..n + 1] == licenses;
      SharesAppend(p, licenses, n);
      ChargeSumAppend(Shares(p, licenses[..n]), Share(p, licenses[n]));
    }
  }

  lemma ChargeSumAppend(charges: seq<Charge>, last: Charge)
    ensures ChargeSum(charges + [last]) == Plus(ChargeSum(charges), last.1)
  {
    assert (charges + [last])[..|charges|] == charges;
  }

  lemma ChargesPartition(allows: string -> bool, p: ShardPin)
    requires PinOk(allows, p)
    ensures ChargeSum(Charges(p)).docs == p.docs && ChargeSum(Charges(p)).tokens == p.tokens
  {
    if |p.licenses| <= 1 || p.usage == map[] {
      ChargeSumOne(Charges(p)[0]);
    } else {
      SharesSum(p, p.licenses);
    }
  }

  lemma ChargeSumOne(c: Charge)
    ensures ChargeSum([c]) == c.1
  {
    assert [c][..0] == [];
  }

  lemma NothingCharged()
    ensures RunningOf([]) == Empty && MeasureSum(Empty.licenses) == Zero
  {
  }

  /** Documents and tokens are split over the licenses without loss or double counting. */
  lemma {:induction false} DocsAndTokensPartition(allows: string -> bool, pins: seq<ShardPin>)
    requires forall p :: p in pins ==> PinOk(allows, p)
    ensures MeasureSum(RunningOf(pins).licenses).docs == RunningOf(pins).total.docs
    ensures MeasureSum(RunningOf(pins).licenses).tokens == RunningOf(pins).total.tokens
  {
    hide PinOk, MergeModalities, Charges, Add, ChargeSum, MeasureSum;
    if pins == [] {
      NothingCharged();
    } else {
      var front, last := pins[..|pins| - 1], pins[|pins| - 1];
      assert forall p :: p in front ==> p in pins;
      assert last in pins;
      DocsAndTokensPartition(allows, front);
      ChargesPartition(allows, last);
      AddSum(RunningOf(front).licenses, Charges(last));
    }
  }

  lemma {:induction false} NoShareBytes(p: ShardPin, licenses: seq<string>)
    requires forall l :: l in licenses ==> ValidShare(p, l)
    ensures ChargeSum(Shares(p, licenses)).bytes == 0
  {
    if licenses != [] {
      var n := |licenses| - 1;
      NoShareBytes(p, licenses[..n]);
      assert licenses[..n + 1] == licenses;
      SharesAppend(p, licenses, n);
      ChargeSumAppend(Shares(p, licenses[..n]), Share(p, licenses[n]));
      assert ValidShare(p, licenses[n]);
    }
  }

  /** A shard under several licenses charges its bytes to none of them. */
  lemma ChargedBytes(allows: string -> bool, p: ShardPin)
    requires PinOk(allows, p)
    ensures ChargeSum(Charges(p)).bytes == (if |p.licenses| <= 1 then p.bytes else 0) && p.bytes > 0
  {
    if |p.licenses| <= 1 {
      ChargeSumOne(Charges(p)[0]);
    } else {
      assert |p.usage| > 0;
      NoShareBytes(p, p.licenses);
    }
  }

  /** So bytes are never charged twice, and they split without loss exactly when each shard has one license. */
  lemma {:induction false} BytesPartitionIff(allows: string -> bool, pins: seq<ShardPin>)
    requires forall p :: p in pins ==> PinOk(allows, p)
    ensures MeasureSum(RunningOf(pins).licenses).bytes <= RunningOf(pins).total.bytes
    ensures MeasureSum(RunningOf(pins).licenses).bytes == RunningOf(pins).total.bytes <==>
            forall p :: p in pins ==> |p.licenses| <= 1
  {
    hide PinOk, MergeModalities, Charges, Add, ChargeSum, MeasureSum;
    if pins == [] {
      NothingCharged();
    } else {
      var front, last := pins[..|pins| - 1], pins[|pins| - 1];
      assert forall p :: p in pins <==> p in front || p == last;
      BytesPartitionIff(allows, front);
      ChargedBytes(allows, last);
      AddSum(RunningOf(front).licenses, Charges(last));
    }
  }
}
