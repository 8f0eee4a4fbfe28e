/**
  Turning deposits into fee and refund, and marking internal transfers, in place on shared objects
  (packages/data-fetcher/src/transfer/transfer.service.ts, packages/data-fetcher/src/utils/isInternalTransaction.ts).
*/
module Transfers {
  import opened Basics

  datatype TransferType = Deposit | Transfer_ | Withdrawal | Fee | Mint | Refund

  /** The addresses the source takes from its constants. */
  datatype Constants = Constants(baseToken: string, bootloader: string, lower: string -> string)

  /** A transfer's fields at one moment. */
  datatype Fields = Fields(from: string, to: string, amount: int, tokenAddress: string, kind: TransferType,
                           isFeeOrRefund: bool, logIndex: int, isInternal: bool)

  class Transfer {
    var from: string
    const to: string
    const amount: int
    const tokenAddress: string
    var kind: TransferType
    var isFeeOrRefund: bool
    const logIndex: int
    var isInternal: bool

    constructor (f: Fields)
      ensures Now() == f
    {
      from, to, amount, tokenAddress := f.from, f.to, f.amount, f.tokenAddress;
      kind, isFeeOrRefund, logIndex, isInternal := f.kind, f.isFeeOrRefund, f.logIndex, f.isInternal;
    }

    function Now(): Fields
      reads this
    {
      Fields(from, to, amount, tokenAddress, kind, isFeeOrRefund, logIndex, isInternal)
    }
  }

  function FieldsOf(transfers: seq<Transfer>): (fields: seq<Fields>)
    reads transfers
    ensures |fields| == |transfers|
    ensures forall i :: 0 <= i < |transfers| ==> fields[i] == transfers[i].Now()
  {
    if |transfers| == 0 then []
    else FieldsOf(transfers[..|transfers| - 1]) + [transfers[|transfers| - 1].Now()]
  }

  // ---------------------------------------------------------------- which deposits

  predicate IsBaseDeposit(c: Constants, t: Fields) { t.kind == Deposit && t.tokenAddress == c.baseToken }
  predicate IsFeeDeposit(c: Constants, t: Fields) { IsBaseDeposit(c, t) && t.to == c.bootloader }
  predicate IsOtherDeposit(c: Constants, t: Fields) { IsBaseDeposit(c, t) && t.to != c.bootloader }

  /** The fee is the first base token deposit to the bootloader. */
  ghost predicate IsFee(c: Constants, ts: seq<Fields>, fee: int) {
    0 <= fee < |ts| && IsFeeDeposit(c, ts[fee]) && forall i :: 0 <= i < fee ==> !IsFeeDeposit(c, ts[i])
  }

  /** The refund is the last other base token deposit logged after the fee. */
  ghost predicate IsRefund(c: Constants, ts: seq<Fields>, fee: int, refund: int) {
    && 0 <= fee < |ts| && 0 <= refund < |ts|
    && IsOtherDeposit(c, ts[refund]) && ts[refund].logIndex > ts[fee].logIndex
    && forall i :: refund < i < |ts| && IsOtherDeposit(c, ts[i]) ==> ts[i].logIndex <= ts[fee].logIndex
  }

  /** The fee's payer: the sender of the first other base token deposit, else the transaction's initiator. */
  ghost predicate IsPayer(c: Constants, ts: seq<Fields>, initiator: string, payer: string) {
    if exists i :: 0 <= i < |ts| && IsOtherDeposit(c, ts[i]) then
      exists i :: FirstOther(c, ts, i) && payer == ts[i].from
    else payer == initiator
  }

  ghost predicate FirstOther(c: Constants, ts: seq<Fields>, i: int) {
    0 <= i < |ts| && IsOtherDeposit(c, ts[i]) && forall j :: 0 <= j < i ==> !IsOtherDeposit(c, ts[j])
  }

  /** What the two formatting passes do to a list of transfers. */
  ghost predicate Reclassified(c: Constants, l1Originated: bool, initiator: string, before: seq<Fields>,
      after: seq<Fields>,
                               fee: Option<int>, refund: Option<int>) {
    && |after| == |before|
    && (fee.Some? <==> l1Originated && exists i :: IsFee(c, before, i))
    && (fee.Some? ==> IsFee(c, before, fee.value))
    && (refund.Some? <==> fee.Some? && exists i :: IsRefund(c, before, fee.value, i))
    && (refund.Some? ==> IsRefund(c, before, fee.value, refund.value))
    && (forall i :: 0 <= i < |before| && fee != Some(i) && refund != Some(i) ==> after[i] == before[i])
    && (fee.Some? ==> IsPayer(c, before, initiator, after[fee.value].from))
    && (fee.Some? ==>
          after[fee.value] == before[fee.value].(kind := Fee, isFeeOrRefund := true, from := after[fee.value].from))
    && (refund.Some? ==>
          after[refund.value] == before[refund.value].(kind := Refund, isFeeOrRefund := true, from := c.bootloader))
  }

  /** What the handlers make of one log; a handler may throw. */
  datatype Extracted = NoTransfer | Found(transfer: Transfer) | Unparsable

  function FoundIn(logs: seq<Extracted>): seq<Transfer> {
    if |logs| == 0 then []
    else
      var n := |logs| - 1;
      if logs[n].Found? then FoundIn(logs[..n]) + [logs[n].transfer] else FoundIn(logs[..n])
  }

  /** Every log is extracted to an object of its own. */
  ghost predicate OwnObjects(logs: seq<Extracted>) {
    forall i, j :: 0 <= i < j < |logs| && logs[i].Found? ==> logs[i] != logs[j]
  }

  lemma {:induction false} FoundAreDistinct(logs: seq<Extracted>)
    requires OwnObjects(logs)
    ensures Distinct(FoundIn(logs))
  {
    if |logs| > 0 {
      var n := |logs| - 1;
      FoundAreDistinct(logs[..n]);
      forall i | 0 <= i < |FoundIn(logs[..n])| ensures Found(FoundIn(logs[..n])[i]) != logs[n] {
        FoundIsExtracted(logs[..n], i);
      }
    }
  }

  lemma {:induction false} FoundIsExtracted(logs: seq<Extracted>, i: nat)
    requires i < |FoundIn(logs)|
    ensures exists j :: 0 <= j < |logs| && logs[j] == Found(FoundIn(logs)[i])
  {
    var n := |logs| - 1;
    if logs[n].Found? && i == |FoundIn(logs)| - 1 {
      assert logs[n] == Found(FoundIn(logs)[i]);
    } else {
      FoundIsExtracted(logs[..n], i);
      var j :| 0 <= j < n && logs[..n][j] == Found(FoundIn(logs[..n])[i]);
      assert logs[j] == Found(FoundIn(logs)[i]);
    }
  }

  class TransferService {
    const constants: Constants

    constructor (constants: Constants)
      ensures this.constants == constants
    {
      this.constants := constants;
    }

    /**
      Both passes over the objects extracted from the logs. Every flag is the one the transfer would have had
      before the reclassification: a fee or refund was a deposit and is external either way.
    */
    method GetTransfers(logs: seq<Extracted>, isL1Originated: bool, initiatorAddress: string,
                        receipt: Option<(string, string)>)
      returns (transfers: seq<Transfer>, threw: bool, ghost between: seq<Fields>, ghost fee: Option<int>,
          ghost refund: Option<int>)
      requires OwnObjects(logs)
      modifies FoundIn(logs)
      ensures threw <==> Unparsable in logs
      ensures threw ==> FieldsOf(FoundIn(logs)) == old(FieldsOf(FoundIn(logs)))
      ensures !threw ==> transfers == FoundIn(logs)
      ensures !threw ==> Reclassified(constants, isL1Originated, initiatorAddress, old(FieldsOf(FoundIn(logs))),
        between, fee, refund)
      ensures !threw ==> AllMarked(constants, between, FieldsOf(transfers), receipt)
      ensures !threw ==> FlagsOfExtracted(constants, old(FieldsOf(FoundIn(logs))), FieldsOf(transfers), receipt)
    {
      between, fee, refund := [], None, None;
      forall i | 0 <= i < |FoundIn(logs)| ensures exists j :: 0 <= j < |logs| && logs[j] == Found(FoundIn(logs)[i]) {
        FoundIsExtracted(logs, i);
      }
      ghost var before := FieldsOf(FoundIn(logs));
      transfers, threw := Extract(logs);
      assert FieldsOf(FoundIn(logs)) == before;
      if !threw {
        FoundAreDistinct(logs);
        between, fee, refund := FormatAndMark(transfers, isL1Originated, initiatorAddress, receipt);
      }
    }

    /** The loop over the logs. */
    method Extract(logs: seq<Extracted>) returns (transfers: seq<Transfer>, threw: bool)
      ensures threw <==> Unparsable in logs
      ensures !threw ==> transfers == FoundIn(logs)
    {
      transfers := [];
      for i := 0 to |logs|
        invariant transfers == FoundIn(logs[..i]) && Unparsable !in logs[..i]
      {
        assert logs[..i + 1] == logs[..i] + [logs[i]] && logs[..i + 1][..i] == logs[..i];
        if logs[i].Unparsable? {
          return transfers, true;
        }
        if logs[i].Found? {
          transfers := transfers + [logs[i].transfer];
        }
      }
      assert logs[..|logs|] == logs;
      threw := false;
    }

    method FormatAndMark(transfers: seq<Transfer>, isL1Originated: bool, initiatorAddress: string,
                         receipt: Option<(string, string)>)
      returns (ghost between: seq<Fields>, ghost fee: Option<int>, ghost refund: Option<int>)
      requires Distinct(transfers)
      modifies transfers
      ensures Reclassified(constants, isL1Originated, initiatorAddress, old(FieldsOf(transfers)), between, fee, refund)
      ensures AllMarked(constants, between, FieldsOf(transfers), receipt)
      ensures FlagsOfExtracted(constants, old(FieldsOf(transfers)), FieldsOf(transfers), receipt)
    {
      ghost var before := FieldsOf(transfers);
      fee, refund := FormatFeeAndRefundDeposits(transfers, isL1Originated, initiatorAddress);
      between := FieldsOf(transfers);
      MarkInternalTransactions(transfers, receipt);
      ReclassifyingKeepsFlags(constants, isL1Originated, initiatorAddress, before, between, FieldsOf(transfers), fee,
          refund, receipt);
    }

    /** `isL1Originated` is false also when there are no transaction details. */
    method FormatFeeAndRefundDeposits(transfers: seq<Transfer>, isL1Originated: bool, initiatorAddress: string)
      returns (ghost fee: Option<int>, ghost refund: Option<int>)
      requires Distinct(transfers)
      modifies transfers
      ensures Reclassified(constants, isL1Originated, initiatorAddress, old(FieldsOf(transfers)), FieldsOf(transfers),
        fee, refund)
    {
      fee, refund := None, None;
      ghost var before := FieldsOf(transfers);
      if !isL1Originated {
        return;
      }
      var feeDeposit, firstOther := FindDeposits(transfers);
      if feeDeposit.None? {
        return;
      }
      var refundDeposit := FindRefund(transfers, feeDeposit.value);
      var payer := if firstOther.Some? then transfers[firstOther.value].from else initiatorAddress;
      assert IsPayer(constants, before, initiatorAddress, payer) by {
        if firstOther.Some? {
          assert FirstOther(constants, before, firstOther.value) && IsOtherDeposit(constants, before[firstOther.value]);
        }
      }
      fee, refund := Some(feeDeposit.value), if refundDeposit.Some? then Some(refundDeposit.value) else None;
      SetFeeOrRefund(transfers, feeDeposit.value, Fee, payer);
      if refundDeposit.Some? {
        SetFeeOrRefund(transfers, refundDeposit.value, Refund, constants.bootloader);
      }
      FeeThenRefund(constants, initiatorAddress, before, payer, feeDeposit.value, refundDeposit, FieldsOf(transfers));
    }

    /** The first deposit to the bootloader, and the first other deposit. */
    method FindDeposits(transfers: seq<Transfer>) returns (feeDeposit: Option<nat>, firstOther: Option<nat>)
      ensures feeDeposit.Some? ==> IsFee(constants, FieldsOf(transfers), feeDeposit.value)
      ensures feeDeposit.None? ==> forall j :: 0 <= j < |transfers| ==> !IsFeeDeposit(constants, FieldsOf(transfers)[j])
      ensures firstOther.Some? ==> FirstOther(constants, FieldsOf(transfers), firstOther.value)
      ensures firstOther.None? ==> forall j :: 0 <= j < |transfers| ==>
        !IsOtherDeposit(constants, FieldsOf(transfers)[j])
    {
      ghost var before := FieldsOf(transfers);
      feeDeposit, firstOther := None, None;
      for i := 0 to |transfers|
        invariant feeDeposit.Some? ==> feeDeposit.value < i && IsFee(constants, before, feeDeposit.value)
        invariant feeDeposit.None? ==> forall j :: 0 <= j < i ==> !IsFeeDeposit(constants, before[j])
        invariant firstOther.Some? ==> firstOther.value < i && FirstOther(constants, before, firstOther.value)
        invariant firstOther.None? ==> forall j :: 0 <= j < i ==> !IsOtherDeposit(constants, before[j])
      {
        if IsFeeDeposit(constants, transfers[i].Now()) && feeDeposit.None? {
          feeDeposit := Some(i);
        }
        if IsOtherDeposit(constants, transfers[i].Now()) && firstOther.None? {
          firstOther := Some(i);
        }
      }
    }

    /** The last other deposit logged after the fee. */
    method FindRefund(transfers: seq<Transfer>, fee: nat) returns (refund: Option<nat>)
      requires fee < |transfers|
      ensures refund.Some? ==> IsRefund(constants, FieldsOf(transfers), fee, refund.value)
      ensures refund.None? ==> forall i :: !IsRefund(constants, FieldsOf(transfers), fee, i)
    {
      ghost var before := FieldsOf(transfers);
      refund := None;
      for i := 0 to |transfers|
        invariant refund.Some? ==> refund.value < i && IsOtherDeposit(constants, before[refund.value])
        invariant refund.Some? ==> before[refund.value].logIndex > before[fee].logIndex
        invariant forall j ::
          0 <= j < i && (refund.Some? ==> refund.value < j) && IsOtherDeposit(constants, before[j]) ==>
          before[j].logIndex <= before[fee].logIndex
      {
        if IsOtherDeposit(constants, transfers[i].Now()) && transfers[i].logIndex > transfers[fee].logIndex {
          refund := Some(i);
        }
      }
    }

    method SetFeeOrRefund(transfers: seq<Transfer>, i: nat, kind: TransferType, from: string)
      requires Distinct(transfers) && i < |transfers|
      modifies transfers[i]
      ensures FieldsOf(transfers) ==
        old(FieldsOf(transfers))[i := old(FieldsOf(transfers))[i].(kind := kind, isFeeOrRefund := true, from := from)]
    {
      transfers[i].kind := kind;
      transfers[i].isFeeOrRefund := true;
      transfers[i].from := from;
    }

    method MarkInternalTransactions(transfers: seq<Transfer>, receipt: Option<(string, string)>)
      requires Distinct(transfers)
      modifies transfers
      ensures forall i :: 0 <= i < |transfers| ==>
        transfers[i].Now() == Marked(constants, old(transfers[i].Now()), receipt)
    {
      for i := 0 to |transfers|
        invariant forall j :: 0 <= j < i ==> transfers[j].Now() == Marked(constants, old(transfers[j].Now()), receipt)
        invariant forall j :: i <= j < |transfers| ==> transfers[j].Now() == old(transfers[j].Now())
      {
        transfers[i].isInternal := IsInternalTransaction(constants, transfers[i].Now(), receipt);
      }
    }
  }

  /** A base token transfer is internal unless it is the transaction itself. */
  predicate IsInternalTransaction(c: Constants, t: Fields, receipt: Option<(string, string)>) {
    && t.kind == Transfer_
    && c.lower(t.tokenAddress) == c.lower(c.baseToken)
    && !(receipt.Some? && c.lower(receipt.value.0) == c.lower(t.from) && c.lower(receipt.value.1) == c.lower(t.to))
  }

  function Marked(c: Constants, t: Fields, receipt: Option<(string, string)>): Fields {
    t.(isInternal := IsInternalTransaction(c, t, receipt))
  }

  /** Writing the fee, then the refund if there is one. */
  lemma FeeThenRefund(c: Constants, initiator: string, before: seq<Fields>, payer: string, fee: nat,
      refund: Option<nat>,
                      after: seq<Fields>)
    requires IsFee(c, before, fee) && IsPayer(c, before, initiator, payer)
    requires if refund.Some? then IsRefund(c, before, fee, refund.value) else forall i :: !IsRefund(c, before, fee, i)
    requires var paid := before[fee := before[fee].(kind := Fee, isFeeOrRefund := true, from := payer)];
      after == if refund.None? then paid
               else paid[refund.value := paid[refund.value].(kind := Refund, isFeeOrRefund := true,
                   from := c.bootloader)]
    ensures Reclassified(c, true, initiator, before, after, Some(fee), if refund.Some? then Some(refund.value)
      else None)
  {
    assert refund.Some? ==> refund.value != fee;
  }

  // ---------------------------------------------------------------- what a reader can rely on

  /**
    Reclassifying never touches more than two transfers, two different ones when two, the second logged
    after the first, both base token deposits of an L1-originated transaction; to, amount, token, order
    and log index of every transfer stay.
  */
  lemma OnlyFeeAndRefundChange(c: Constants, l1Originated: bool, initiator: string, before: seq<Fields>,
      after: seq<Fields>,
                               fee: Option<int>, refund: Option<int>)
    requires Reclassified(c, l1Originated, initiator, before, after, fee, refund)
    ensures forall i :: 0 <= i < |before| && after[i] != before[i] ==> l1Originated && IsBaseDeposit(c, before[i])
    ensures forall i, j, k :: 0 <= i < j < k < |before| ==>
      after[i] == before[i] || after[j] == before[j] || after[k] == before[k]
    ensures fee.Some? && refund.Some? ==>
      fee != refund && after[refund.value].logIndex > after[fee.value].logIndex
    ensures forall i :: 0 <= i < |before| ==>
      after[i] == before[i].(from := after[i].from, kind := after[i].kind, isFeeOrRefund := after[i].isFeeOrRefund)
    ensures forall i ::
      0 <= i < |before| && before[i].kind != Fee && before[i].kind != Refund && !before[i].isFeeOrRefund ==>
      (after[i].isFeeOrRefund <==> after[i].kind == Fee || after[i].kind == Refund)
  {
  }

  ghost predicate AllMarked(c: Constants, before: seq<Fields>, after: seq<Fields>, receipt: Option<(string, string)>) {
    |after| == |before| && forall i :: 0 <= i < |before| ==> after[i] == Marked(c, before[i], receipt)
  }

  /** The flags are those of the transfers as they were extracted, and what changed its kind is not internal. */
  ghost predicate FlagsOfExtracted(c: Constants, before: seq<Fields>, after: seq<Fields>,
      receipt: Option<(string, string)>) {
    && |after| == |before|
    && (forall i :: 0 <= i < |after| ==> (after[i].isInternal <==> IsInternalTransaction(c, before[i], receipt)))
    && (forall i :: 0 <= i < |after| && after[i].kind != before[i].kind ==> !after[i].isInternal)
  }

  /**
    Over both passes: what became a fee or refund is not internal, and no flag depends on the
    reclassification, although it changed kind and sender before the flags were computed.
  */
  lemma ReclassifyingKeepsFlags(c: Constants, l1Originated: bool, initiator: string, before: seq<Fields>,
      between: seq<Fields>,
                                after: seq<Fields>, fee: Option<int>, refund: Option<int>,
                                    receipt: Option<(string, string)>)
    requires Reclassified(c, l1Originated, initiator, before, between, fee, refund)
    requires AllMarked(c, between, after, receipt)
    ensures fee.Some? ==> after[fee.value].kind == Fee && !after[fee.value].isInternal
    ensures refund.Some? ==> after[refund.value].kind == Refund && !after[refund.value].isInternal
    ensures FlagsOfExtracted(c, before, after, receipt)
    ensures forall i :: 0 <= i < |after| && after[i].kind != before[i].kind ==> fee == Some(i) || refund == Some(i)
  {
    forall i | 0 <= i < |after| ensures after[i].isInternal <==> IsInternalTransaction(c, before[i], receipt) {
      if fee != Some(i) && refund != Some(i) {
        assert between[i] == before[i];
      }
    }
  }

  /** Running the formatting again finds the next deposit to the bootloader; with only one, it changes nothing. */
  lemma FormattingOnceIsEnough(c: Constants, initiator: string, before: seq<Fields>, after: seq<Fields>,
      again: seq<Fields>,
                               fee: Option<int>, refund: Option<int>, fee2: Option<int>, refund2: Option<int>)
    requires Reclassified(c, true, initiator, before, after, fee, refund)
    requires Reclassified(c, true, initiator, after, again, fee2, refund2)
    ensures again == after <==>
      forall i, j :: 0 <= i < j < |before| ==> !(IsFeeDeposit(c, before[i]) && IsFeeDeposit(c, before[j]))
  {
    if fee.Some? {
      if fee2.Some? {
        assert IsFeeDeposit(c, before[fee2.value]) && fee2.value != fee.value;
        assert again[fee2.value].kind == Fee && after[fee2.value].kind == Deposit;
      } else {
        forall i, j | 0 <= i < j < |before| ensures !(IsFeeDeposit(c, before[i]) && IsFeeDeposit(c, before[j])) {
          if IsFeeDeposit(c, before[i]) && IsFeeDeposit(c, before[j]) {
            var other := if i == fee.value then j else i;
            assert IsFeeDeposit(c, after[other]);
            var first := FirstFee(c, after, other);
            assert false;
          }
        }
      }
    } else {
      assert forall i :: 0 <= i < |before| ==> after[i] == before[i];
      if i :| 0 <= i < |before| && IsFeeDeposit(c, before[i]) {
        var first := FirstFee(c, before, i);
        assert false;
      }
      assert again == after;
    }
  }

  lemma {:induction false} FirstFee(c: Constants, ts: seq<Fields>, i: nat) returns (fee: nat)
    requires i < |ts| && IsFeeDeposit(c, ts[i])
    ensures fee <= i && IsFee(c, ts, fee)
  {
    fee := i;
    if j :| 0 <= j < i && IsFeeDeposit(c, ts[j]) {
      fee := FirstFee(c, ts, j);
    }
  }
}
