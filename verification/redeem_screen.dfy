/**
 * The redemption screen as a state machine: enter an amount, scan the gift
 * card, wait for the service, then confirm, retry or cancel. Each handler is
 * one atomic step; the alert dialogs the screen raises become part of the
 * state, and their buttons become events. The scanner's lock and the amount
 * field's contents live in components that exist only while their view is
 * shown, so they are reset whenever that view goes away.
 */
module RedeemScreen {
  import opened Wrappers
  import opened Text
  import opened AmountInput
  import QrScanner
  import Merchant
  import Api = GiftCardApi

  const FailurePrefix := "Error al redimir el giftcard: "
  const UnexpectedError := "Error inesperado al procesar la redención"

  /** The alert on screen, if any: success (OK), or an error (Retry, Cancel). */
  datatype Dialog = NoDialog | SuccessDialog | ErrorDialog(message: string)

  /**
   * The screen's four fields, then the mounted scanner's lock, the mounted
   * amount field and the open alert.
   */
  datatype State = State(
    amount: Option<nat>,
    showScanner: bool,
    isProcessing: bool,
    currentGiftCardId: Option<string>,
    qrLock: bool,
    field: Field,
    dialog: Dialog)

  const Initial := State(None, false, false, None, QrScanner.Unlocked, AmountInput.Empty, NoDialog)

  datatype View = ScannerView | ProcessingView | AmountEntryView

  /** How the redemption call ended: with the client's result, or by throwing. */
  datatype Outcome = Returned(reply: Api.Reply) | Threw

  datatype Event =
    | TypeAmount(typed: string)
    | SubmitAmount
    | BarcodeRead(data: string, timestamp: nat, draw: nat)
    | CloseScanner
    | Settle(outcome: Outcome)
    | PressOk
    | PressRetry
    | PressCancel

  /**
   * One step: the state after it, the redemption request it issued, if any,
   * and whether it settled the request in flight.
   */
  datatype Transition = Transition(state: State, issued: Option<Api.Request>, settled: bool)

  /**
   * Which submit the amount field uses: `handleSubmit` as written, which can
   * pass on 0 cents, or the corrected one that passes on only a positive
   * amount (see `AmountInput.HandleSubmitChecked`).
   */
  datatype Guard = AsWritten | Corrected

  function Submit(g: Guard, text: string): (r: Option<nat>)
    requires IsClean(text)
    ensures g == AsWritten ==> r == HandleSubmit(text)
    ensures g == Corrected ==> r == HandleSubmitChecked(text)
  {
    match g
    case AsWritten => HandleSubmit(text)
    case Corrected => HandleSubmitChecked(text)
  }

  /** The view rendered: the scanner first, then the processing view, else amount entry. */
  function ViewOf(st: State): (v: View)
    ensures v == ScannerView <==> st.showScanner
    ensures v == ProcessingView <==> !st.showScanner && st.isProcessing
    ensures v == AmountEntryView <==> !st.showScanner && !st.isProcessing
  {
    if st.showScanner then ScannerView
    else if st.isProcessing then ProcessingView
    else AmountEntryView
  }

  /**
   * Mounting and unmounting after a step from `before` to `after`: a scanner
   * that was not shown before is mounted unlocked, and a component that is
   * not shown keeps no state, so it starts afresh when shown again.
   */
  function Rendered(before: State, after: State): (r: State)
    ensures ViewOf(r) == ViewOf(after)
    ensures r.(qrLock := after.qrLock, field := after.field) == after
    ensures IsClean(after.field.text) ==> IsClean(r.field.text)
    ensures !(before.showScanner && after.showScanner) ==> r.qrLock == QrScanner.Unlocked
    ensures before.showScanner && after.showScanner ==> r.qrLock == after.qrLock
    ensures ViewOf(after) != AmountEntryView ==> r.field == AmountInput.Empty
    ensures ViewOf(after) == AmountEntryView ==> r.field == after.field
  {
    var lock := if after.showScanner && before.showScanner then after.qrLock else QrScanner.Unlocked;
    var field := if ViewOf(after) == AmountEntryView then after.field else AmountInput.Empty;
    after.(qrLock := lock, field := field)
  }

  /** `handleAmountSubmit`: keep the amount and open the scanner. */
  function HandleAmountSubmit(st: State, amountMinor: nat): (r: State)
    ensures r.amount == Some(amountMinor) && ViewOf(r) == ScannerView
    ensures r.(amount := st.amount, showScanner := st.showScanner) == st
  {
    st.(amount := Some(amountMinor), showScanner := true)
  }

  /**
   * `handleQRScanned` with `processRedemption`'s first half: record the
   * card, close the scanner, start processing, and issue the redemption of
   * the kept amount with no tax, the configured identifiers and a receipt
   * number made from the clock reading and the draw.
   */
  function HandleQRScanned(st: State, giftCardId: string, timestamp: nat, draw: nat): (r: (State, Api.Request))
    ensures r.0 == st.(currentGiftCardId := Some(giftCardId), showScanner := false, isProcessing := true)
    ensures var p := r.1.payload;
      && Api.ParseRedeemPath(r.1.path) == Some(giftCardId)
      && p.amountMinor == st.amount && p.taxMinor == 0
      && Merchant.Ids(p.merchantId, p.locationId, p.posId) == Merchant.Configured
      && p.receiptNumber == Merchant.GenerateReceiptNumber(timestamp, draw)
  {
    var ids := Merchant.Configured;
    var receipt := Merchant.GenerateReceiptNumber(timestamp, draw);
    var request := Api.RedeemRequest(giftCardId, st.amount, Some(0), ids.merchantId, ids.locationId, ids.posId, receipt);
    (st.(currentGiftCardId := Some(giftCardId), showScanner := false, isProcessing := true), request)
  }

  /**
   * `processRedemption`'s second half: raise the success alert or the error
   * alert, and stop processing in every case.
   */
  function ProcessOutcome(st: State, outcome: Outcome): (r: State)
    ensures !r.isProcessing
    ensures r.(isProcessing := st.isProcessing, dialog := st.dialog) == st
    ensures r.dialog.SuccessDialog? <==> outcome.Returned? && outcome.reply.Answered?
    ensures outcome.Returned? && outcome.reply.Failed? ==>
      r.dialog == ErrorDialog(FailurePrefix + Api.ErrorText(outcome.reply.responseData, outcome.reply.message))
    ensures outcome.Threw? ==> r.dialog == ErrorDialog(UnexpectedError)
  {
    var dialog :=
      match outcome
      case Threw => ErrorDialog(UnexpectedError)
      case Returned(reply) =>
        match Api.ResultOf(reply)
        case Redeemed(_) => SuccessDialog
        case NotRedeemed(error) => ErrorDialog(FailurePrefix + error);
    st.(isProcessing := false, dialog := dialog)
  }

  /** `resetForm`: the four fields back to their initial values. */
  function ResetForm(st: State): (r: State)
    ensures r.(amount := st.amount, showScanner := st.showScanner, currentGiftCardId := st.currentGiftCardId,
                isProcessing := st.isProcessing) == st
    ensures r.amount == Initial.amount && r.showScanner == Initial.showScanner
    ensures r.currentGiftCardId == Initial.currentGiftCardId && r.isProcessing == Initial.isProcessing
  {
    st.(amount := None, showScanner := false, currentGiftCardId := None, isProcessing := false)
  }

  /** `handleCloseScanner`: hide the scanner and nothing else. */
  function HandleCloseScanner(st: State): (r: State)
    ensures !r.showScanner && r.amount == st.amount
    ensures r.(showScanner := st.showScanner) == st
  {
    st.(showScanner := false)
  }

  function Unchanged(st: State): Transition {
    Transition(st, None, false)
  }

  /**
   * One event. The outcome of the call in flight is taken whenever it comes;
   * an open alert takes only its own buttons; otherwise the event goes to
   * the view on screen and is ignored by the others.
   */
  function Step(g: Guard, st: State, e: Event): (t: Transition)
    requires IsClean(st.field.text)
    ensures IsClean(t.state.field.text)
  {
    if e.Settle? then
      if st.isProcessing then Transition(Rendered(st, ProcessOutcome(st, e.outcome)), None, true)
      else Unchanged(st)
    else if !st.dialog.NoDialog? then
      match e
      case PressOk =>
        if st.dialog.SuccessDialog? then Transition(Rendered(st, ResetForm(st).(dialog := NoDialog)), None, false)
        else Unchanged(st)
      case PressRetry =>
        if st.dialog.ErrorDialog? then Transition(Rendered(st, st.(showScanner := true, dialog := NoDialog)), None, false)
        else Unchanged(st)
      case PressCancel =>
        if st.dialog.ErrorDialog? then Transition(Rendered(st, ResetForm(st).(dialog := NoDialog)), None, false)
        else Unchanged(st)
      case _ => Unchanged(st)
    else
      match ViewOf(st)
      case AmountEntryView =>
        (match e
         case TypeAmount(typed) => Transition(st.(field := HandleAmountChange(typed)), None, false)
         case SubmitAmount =>
           (match Submit(g, st.field.text)
            case None => Unchanged(st)
            case Some(amountMinor) => Transition(Rendered(st, HandleAmountSubmit(st, amountMinor)), None, false))
         case _ => Unchanged(st))
      case ScannerView =>
        (match e
         case BarcodeRead(data, timestamp, draw) =>
           var scan := QrScanner.HandleBarcodeScanned(st.qrLock, data);
           var scanned := st.(qrLock := scan.locked);
           (match scan.effect
            case Delivered(giftCardId) =>
              var (next, request) := HandleQRScanned(scanned, giftCardId, timestamp, draw);
              Transition(Rendered(scanned, next), Some(request), false)
            case _ => Transition(scanned, None, false))
         case CloseScanner => Transition(Rendered(st, HandleCloseScanner(st)), None, false)
         case _ => Unchanged(st))
      case ProcessingView => Unchanged(st)
  }

  /**
   * How one step dispatches its event: only an outcome settles a request,
   * exactly while processing; only a scan issues one; an open alert
   * ignores all but its buttons and the outcome; alert buttons do nothing
   * without an alert; the processing view ignores the rest; and typing on
   * the amount entry only updates the field.
   */
  lemma StepDispatch(g: Guard, st: State, e: Event)
    requires IsClean(st.field.text)
    ensures var t := Step(g, st, e);
      && (t.settled ==> e.Settle?)
      && (e.Settle? ==> (t.settled <==> st.isProcessing))
      && (t.issued.Some? ==> e.BarcodeRead?)
    ensures !st.dialog.NoDialog? && !e.Settle? && !(e.PressOk? || e.PressRetry? || e.PressCancel?) ==>
      Step(g, st, e) == Unchanged(st)
    ensures st.dialog.NoDialog? && (e.PressOk? || e.PressRetry? || e.PressCancel?) ==>
      Step(g, st, e) == Unchanged(st)
    ensures st.dialog.NoDialog? && ViewOf(st) == ProcessingView && !e.Settle? ==>
      Step(g, st, e) == Unchanged(st)
    ensures st.dialog.NoDialog? && ViewOf(st) == AmountEntryView && e.TypeAmount? ==>
      Step(g, st, e) == Transition(st.(field := HandleAmountChange(e.typed)), None, false)
  {
  }

  /** A positive amount has been kept. */
  predicate HasAmount(st: State) {
    st.amount.Some? && st.amount.value > 0
  }

  /**
   * An amount has been kept, and under the corrected guard it is positive.
   * As written, the kept amount can be 0 cents.
   */
  predicate AmountKept(g: Guard, st: State) {
    st.amount.Some? && (g == Corrected ==> HasAmount(st))
  }

  /**
   * What holds of every state the screen can reach: the scanner and the
   * processing view only ever follow a kept amount (a positive one under
   * the corrected guard), an alert only follows a redemption, no two of
   * scanner, processing and alert are up at once, and an unmounted
   * component holds no state.
   */
  predicate Inv(g: Guard, st: State) {
    && IsClean(st.field.text)
    && (st.showScanner ==> AmountKept(g, st) && !st.isProcessing && st.dialog.NoDialog?)
    && (st.isProcessing ==> AmountKept(g, st) && st.currentGiftCardId.Some? && st.dialog.NoDialog?)
    && (!st.dialog.NoDialog? ==> AmountKept(g, st) && st.currentGiftCardId.Some?)
    && (!st.showScanner ==> st.qrLock == QrScanner.Unlocked)
    && (ViewOf(st) != AmountEntryView || !st.dialog.NoDialog? ==> st.field == AmountInput.Empty)
  }

  lemma InitialInv(g: Guard)
    ensures Inv(g, Initial)
  {
  }

  /** Every step keeps the invariant. */
  lemma StepInv(g: Guard, st: State, e: Event)
    requires Inv(g, st)
    ensures Inv(g, Step(g, st, e).state)
  {
    if e.SubmitAmount? && st.dialog.NoDialog? && ViewOf(st) == AmountEntryView {
      var r := Submit(g, st.field.text);
      assert g == Corrected && r.Some? ==> r.value > 0;
    }
  }

  /**
   * Processing starts only with an issued request and ends only with a
   * settled one; a step that does neither leaves it as it was.
   */
  lemma ProcessingOnlyByRequests(g: Guard, st: State, e: Event)
    requires Inv(g, st)
    ensures var t := Step(g, st, e);
      && (t.settled ==> e.Settle? && st.isProcessing && !t.state.isProcessing && t.issued.None?)
      && (t.issued.Some? ==> !st.isProcessing && t.state.isProcessing)
      && (!t.settled && t.issued.None? ==> t.state.isProcessing == st.isProcessing)
  {
  }

  /** Under the invariant the view priority never decides anything: at most one of the two flags is set. */
  lemma ViewFlagsExclusive(g: Guard, st: State)
    requires Inv(g, st)
    ensures !(st.showScanner && st.isProcessing)
    ensures ViewOf(st) == ScannerView <==> st.showScanner
    ensures ViewOf(st) == ProcessingView <==> st.isProcessing
  {
  }

  /**
   * Submitting an amount the guard passes on, from the amount entry, keeps
   * it and opens a fresh, unlocked scanner.
   */
  lemma SubmitOpensScanner(g: Guard, st: State)
    requires Inv(g, st) && ViewOf(st) == AmountEntryView && st.dialog.NoDialog?
    requires Submit(g, st.field.text).Some?
    ensures var t := Step(g, st, SubmitAmount);
      && t.state.amount == Submit(g, st.field.text)
      && ViewOf(t.state) == ScannerView
      && t.state.qrLock == QrScanner.Unlocked
      && t.issued.None? && !t.settled
  {
  }

  /**
   * A request is issued exactly when an open, unlocked scanner reads
   * non-blank data; it redeems the trimmed data as the card, for the kept
   * amount (positive under the corrected guard), with no tax, the configured identifiers and the receipt number
   * of that reading, and the screen moves to processing with the card
   * recorded and the amount kept.
   */
  lemma ScanIssuesRequest(g: Guard, st: State, e: Event)
    requires Inv(g, st)
    ensures var t := Step(g, st, e);
      t.issued.Some? <==>
        e.BarcodeRead? && st.showScanner && !st.qrLock && !QrScanner.Blank(e.data)
    ensures var t := Step(g, st, e);
      t.issued.Some? ==>
        var p := t.issued.value.payload;
        && Api.ParseRedeemPath(t.issued.value.path) == Some(Trim(e.data))
        && p.amountMinor == st.amount && st.amount.Some?
        && (g == Corrected ==> HasAmount(st))
        && p.taxMinor == 0
        && Merchant.Ids(p.merchantId, p.locationId, p.posId) == Merchant.Configured
        && p.receiptNumber == Merchant.GenerateReceiptNumber(e.timestamp, e.draw)
        && t.state.isProcessing && ViewOf(t.state) == ProcessingView
        && t.state.currentGiftCardId == Some(Trim(e.data))
        && t.state.amount == st.amount
  {
    if e.BarcodeRead? && st.showScanner && !st.qrLock && e.data != [] {
      QrScanner.HandleUnlocked(e.data);
    }
  }

  /**
   * The outcome of the request in flight ends processing whatever it is,
   * keeps the amount and the card, and raises the alert that matches it.
   */
  lemma OutcomeEndsProcessing(g: Guard, st: State, outcome: Outcome)
    requires Inv(g, st) && st.isProcessing
    ensures var t := Step(g, st, Settle(outcome));
      && t.settled && t.issued.None?
      && !t.state.isProcessing && ViewOf(t.state) == AmountEntryView
      && t.state.amount == st.amount && t.state.currentGiftCardId == st.currentGiftCardId
      && (t.state.dialog == SuccessDialog <==> outcome.Returned? && outcome.reply.Answered?)
      && (outcome.Threw? ==> t.state.dialog == ErrorDialog(UnexpectedError))
  {
  }

  /** Retry after a failure reopens a fresh scanner and keeps the amount and the card. */
  lemma RetryReopensScanner(g: Guard, st: State)
    requires Inv(g, st) && st.dialog.ErrorDialog?
    ensures var t := Step(g, st, PressRetry);
      && t.state == st.(showScanner := true, dialog := NoDialog)
      && ViewOf(t.state) == ScannerView && t.state.qrLock == QrScanner.Unlocked
      && AmountKept(g, t.state)
      && t.issued.None? && !t.settled
  {
  }

  /** OK after success, or Cancel after a failure, brings back the initial state. */
  lemma DismissResets(g: Guard, st: State, e: Event)
    requires Inv(g, st)
    requires (st.dialog.SuccessDialog? && e.PressOk?) || (st.dialog.ErrorDialog? && e.PressCancel?)
    ensures Step(g, st, e).state == Initial
  {
  }

  /** Closing the scanner only hides it: the amount and every other field stay. */
  lemma CloseKeepsAmount(g: Guard, st: State)
    requires Inv(g, st) && st.showScanner
    ensures Step(g, st, CloseScanner).state == st.(showScanner := false, qrLock := QrScanner.Unlocked)
    ensures Step(g, st, CloseScanner).state.amount == st.amount
  {
  }

  /** The record of a run of events: requests issued and outcomes taken, in order. */
  datatype Mark = Issued(request: Api.Request) | Settled

  datatype Trace = Trace(state: State, marks: seq<Mark>)

  function Run(g: Guard, st: State, events: seq<Event>): (r: Trace)
    requires IsClean(st.field.text)
    decreases |events|
  {
    if events == [] then Trace(st, [])
    else
      var t := Step(g, st, events[0]);
      var rest := Run(g, t.state, events[1..]);
      Trace(rest.state, MarkOf(t) + rest.marks)
  }

  /** What a step leaves in the trace: its request, its settling, or nothing. */
  function MarkOf(t: Transition): seq<Mark> {
    if t.issued.Some? then [Issued(t.issued.value)] else if t.settled then [Settled] else []
  }

  /**
   * Marks that alternate between issuing and settling, starting busy or idle
   * as `from` says and ending as `to` says.
   */
  predicate Alternates(marks: seq<Mark>, from: bool, to: bool)
    decreases |marks|
  {
    if marks == [] then from == to
    else if marks[0].Issued? then !from && Alternates(marks[1..], true, to)
    else from && Alternates(marks[1..], false, to)
  }

  /** Every request in the marks carries a positive amount. */
  predicate AmountsPositive(marks: seq<Mark>) {
    forall i :: 0 <= i < |marks| && marks[i].Issued? ==>
      var a := marks[i].request.payload.amountMinor; a.Some? && a.value > 0
  }

  /**
   * No overlapping redemptions: over any run of events, requests and
   * outcomes strictly alternate, a request is only issued when none is in
   * flight, and the screen is processing at the end exactly when the last
   * request has not been settled. Under the corrected guard every request
   * carries a positive amount.
   */
  lemma {:induction false} OneRedemptionAtATime(g: Guard, st: State, events: seq<Event>)
    requires Inv(g, st)
    ensures var r := Run(g, st, events);
      && Inv(g, r.state)
      && Alternates(r.marks, st.isProcessing, r.state.isProcessing)
      && (g == Corrected ==> AmountsPositive(r.marks))
    decreases |events|
  {
    if events != [] {
      var t := Step(g, st, events[0]);
      StepInv(g, st, events[0]);
      StepMark(g, st, events[0]);
      OneRedemptionAtATime(g, t.state, events[1..]);
      var rest := Run(g, t.state, events[1..]);
      AlternatesAppend(MarkOf(t), rest.marks, st.isProcessing, t.state.isProcessing, rest.state.isProcessing);
      if g == Corrected {
        AmountsPositiveAppend(MarkOf(t), rest.marks);
      }
    }
  }

  /**
   * One step's mark moves between busy and idle as the step moves the
   * processing flag, and under the corrected guard a request it issues
   * carries a positive amount.
   */
  lemma StepMark(g: Guard, st: State, e: Event)
    requires Inv(g, st)
    ensures var t := Step(g, st, e);
      && Alternates(MarkOf(t), st.isProcessing, t.state.isProcessing)
      && (g == Corrected ==> AmountsPositive(MarkOf(t)))
  {
    var t := Step(g, st, e);
    ProcessingOnlyByRequests(g, st, e);
    MarkAlternates(t, st.isProcessing);
    if g == Corrected {
      ScanIssuesRequest(g, st, e);
      MarkPositive(t);
    }
  }

  /** A transition that moves the processing flag as a request or a settling does leaves an alternating mark. */
  lemma MarkAlternates(t: Transition, from: bool)
    requires t.settled ==> from && !t.state.isProcessing && t.issued.None?
    requires t.issued.Some? ==> !from && t.state.isProcessing
    requires !t.settled && t.issued.None? ==> t.state.isProcessing == from
    ensures Alternates(MarkOf(t), from, t.state.isProcessing)
  {
  }

  /** A transition whose request, if any, carries a positive amount leaves a positive mark. */
  lemma MarkPositive(t: Transition)
    requires t.issued.Some? ==>
      var a := t.issued.value.payload.amountMinor; a.Some? && a.value > 0
    ensures AmountsPositive(MarkOf(t))
  {
  }

  lemma {:induction false} AlternatesAppend(a: seq<Mark>, b: seq<Mark>, from: bool, mid: bool, to: bool)
    requires Alternates(a, from, mid) && Alternates(b, mid, to)
    ensures Alternates(a + b, from, to)
    decreases |a|
  {
    if a != [] {
      assert (a + b)[1..] == a[1..] + b;
      AlternatesAppend(a[1..], b, !from, mid, to);
    } else {
      assert a + b == b;
    }
  }

  lemma AmountsPositiveAppend(a: seq<Mark>, b: seq<Mark>)
    requires AmountsPositive(a) && AmountsPositive(b)
    ensures AmountsPositive(a + b)
  {
    forall i | 0 <= i < |a + b| && (a + b)[i].Issued?
      ensures var x := (a + b)[i].request.payload.amountMinor; x.Some? && x.value > 0
    {
      if i >= |a| {
        assert (a + b)[i] == b[i - |a|];
      }
    }
  }

  /**
   * A retry redeems the same amount again under a new receipt number: after
   * Retry and a non-blank scan, the one request issued carries the amount
   * kept from before and the receipt number of the new reading.
   */
  lemma RetryRedeemsSameAmount(g: Guard, st: State, data: string, timestamp: nat, draw: nat)
    requires Inv(g, st) && st.dialog.ErrorDialog? && !QrScanner.Blank(data)
    ensures var r := Run(g, st, [PressRetry, BarcodeRead(data, timestamp, draw)]);
      && |r.marks| == 1 && r.marks[0].Issued?
      && r.marks[0].request.payload.amountMinor == st.amount
      && r.marks[0].request.payload.receiptNumber == Merchant.GenerateReceiptNumber(timestamp, draw)
      && r.state.isProcessing
  {
    var e2 := BarcodeRead(data, timestamp, draw);
    RetryThenScan(g, st, e2);
    RunTwo(g, st, PressRetry, e2);
  }

  /** The two steps of a retry followed by a non-blank scan, one at a time. */
  lemma RetryThenScan(g: Guard, st: State, e2: Event)
    requires Inv(g, st) && st.dialog.ErrorDialog? && e2.BarcodeRead? && !QrScanner.Blank(e2.data)
    ensures var t1 := Step(g, st, PressRetry);
      var t2 := Step(g, t1.state, e2);
      && MarkOf(t1) == [] && t2.issued.Some? && t2.state.isProcessing
      && t2.issued.value.payload.amountMinor == st.amount
      && t2.issued.value.payload.receiptNumber == Merchant.GenerateReceiptNumber(e2.timestamp, e2.draw)
  {
    RetryReopensScanner(g, st);
    var t1 := Step(g, st, PressRetry);
    assert MarkOf(t1) == [];
    StepInv(g, st, PressRetry);
    ScanIssuesRequest(g, t1.state, e2);
  }

  /** Running one event is one step. */
  lemma RunOne(g: Guard, st: State, e: Event)
    requires IsClean(st.field.text)
    ensures var t := Step(g, st, e); Run(g, st, [e]) == Trace(t.state, MarkOf(t))
  {
    assert [e][1..] == [];
    var t := Step(g, st, e);
    assert MarkOf(t) + [] == MarkOf(t);
  }

  /** Running two events is stepping twice and joining the marks. */
  lemma RunTwo(g: Guard, st: State, e1: Event, e2: Event)
    requires IsClean(st.field.text)
    ensures var t1 := Step(g, st, e1);
      var t2 := Step(g, t1.state, e2);
      Run(g, st, [e1, e2]) == Trace(t2.state, MarkOf(t1) + MarkOf(t2))
  {
    assert [e1, e2][1..] == [e2];
    var t1 := Step(g, st, e1);
    RunOne(g, t1.state, e2);
  }

  /** Running an event before others is stepping once and running the rest. */
  lemma RunCons(g: Guard, st: State, e: Event, rest: seq<Event>)
    requires IsClean(st.field.text)
    ensures var t := Step(g, st, e);
      var r := Run(g, t.state, rest);
      Run(g, st, [e] + rest) == Trace(r.state, MarkOf(t) + r.marks)
  {
    assert ([e] + rest)[0] == e;
    assert ([e] + rest)[1..] == rest;
  }

  /**
   * As written, typing "0.001", submitting and scanning a card issues a
   * redemption of 0 cents; with the corrected guard the same events issue
   * nothing and leave the screen on the amount entry.
   */
  lemma AsWrittenRedeemsZeroCents(data: string, timestamp: nat, draw: nat)
    requires !QrScanner.Blank(data)
    ensures var r := Run(AsWritten, Initial, [TypeAmount("0.001"), SubmitAmount, BarcodeRead(data, timestamp, draw)]);
      && |r.marks| == 1 && r.marks[0].Issued?
      && r.marks[0].request.payload.amountMinor == Some(0)
    ensures var r := Run(Corrected, Initial, [TypeAmount("0.001"), SubmitAmount, BarcodeRead(data, timestamp, draw)]);
      && r.marks == []
      && ViewOf(r.state) == AmountEntryView && r.state.amount == None
  {
    AmountInput.ParseZeroPointOne();
    AmountInput.SubmitAcceptsZeroCents();
    ZeroCentsRedeemed("0.001", BarcodeRead(data, timestamp, draw));
    ZeroCentsRefused("0.001", BarcodeRead(data, timestamp, draw));
  }

  /** As written, any text that submits 0 cents, then a scan, issues a request for 0 cents. */
  lemma ZeroCentsRedeemed(typed: string, e3: Event)
    requires IsClean(typed) && HandleSubmit(typed) == Some(0)
    requires e3.BarcodeRead? && !QrScanner.Blank(e3.data)
    ensures var r := Run(AsWritten, Initial, [TypeAmount(typed), SubmitAmount, e3]);
      && |r.marks| == 1 && r.marks[0].Issued?
      && r.marks[0].request.payload.amountMinor == Some(0)
  {
    var st := Initial.(field := HandleAmountChange(typed));
    TypedState(AsWritten, typed);
    RunTyped(AsWritten, typed, SubmitAmount, e3);
    SubmitZeroThenScan(st, e3);
  }

  /** Clean text typed on the initial screen: the amount entry shows it, under the invariant. */
  lemma TypedState(g: Guard, typed: string)
    requires IsClean(typed)
    ensures var st := Initial.(field := HandleAmountChange(typed));
      && Inv(g, st) && ViewOf(st) == AmountEntryView && st.dialog.NoDialog?
      && st.field.text == typed
  {
    AmountInput.CleanOfClean(typed);
  }

  /** Typing, then two more events, from the initial screen: the typing leaves no mark. */
  lemma RunTyped(g: Guard, typed: string, e2: Event, e3: Event)
    ensures var st := Initial.(field := HandleAmountChange(typed));
      Run(g, Initial, [TypeAmount(typed), e2, e3]) == Run(g, st, [e2, e3])
  {
    TypeOnInitial(g, typed);
    assert [TypeAmount(typed), e2, e3] == [TypeAmount(typed)] + [e2, e3];
    RunCons(g, Initial, TypeAmount(typed), [e2, e3]);
    var r := Run(g, Initial.(field := HandleAmountChange(typed)), [e2, e3]);
    assert [] + r.marks == r.marks;
  }

  /** With the corrected guard, the same events issue nothing and leave the typed field on screen. */
  lemma ZeroCentsRefused(typed: string, e3: Event)
    requires IsClean(typed) && HandleSubmit(typed) == Some(0)
    requires e3.BarcodeRead?
    ensures var r := Run(Corrected, Initial, [TypeAmount(typed), SubmitAmount, e3]);
      && r.marks == []
      && r.state == Initial.(field := HandleAmountChange(typed))
  {
    var st := Initial.(field := HandleAmountChange(typed));
    TypedState(Corrected, typed);
    RunTyped(Corrected, typed, SubmitAmount, e3);
    RefusedThenScan(st, e3);
  }

  /** Typing on the initial screen only fills the field. */
  lemma TypeOnInitial(g: Guard, typed: string)
    ensures var t := Step(g, Initial, TypeAmount(typed));
      && t == Transition(Initial.(field := HandleAmountChange(typed)), None, false)
      && Inv(g, t.state)
  {
  }

  /** As written, a field that submits 0 cents, then a scan, issues a request for 0 cents. */
  lemma SubmitZeroThenScan(st: State, e3: Event)
    requires Inv(AsWritten, st) && ViewOf(st) == AmountEntryView && st.dialog.NoDialog?
    requires HandleSubmit(st.field.text) == Some(0)
    requires e3.BarcodeRead? && !QrScanner.Blank(e3.data)
    ensures var r := Run(AsWritten, st, [SubmitAmount, e3]);
      && |r.marks| == 1 && r.marks[0].Issued?
      && r.marks[0].request.payload.amountMinor == Some(0)
  {
    SubmitOpensScanner(AsWritten, st);
    var t1 := Step(AsWritten, st, SubmitAmount);
    StepInv(AsWritten, st, SubmitAmount);
    ScanIssuesRequest(AsWritten, t1.state, e3);
    RunTwo(AsWritten, st, SubmitAmount, e3);
  }

  /** With the corrected guard, a refused submit and then a scan leave the amount entry as it was. */
  lemma RefusedThenScan(st: State, e3: Event)
    requires Inv(Corrected, st) && ViewOf(st) == AmountEntryView && st.dialog.NoDialog?
    requires HandleSubmitChecked(st.field.text) == None
    requires e3.BarcodeRead?
    ensures var r := Run(Corrected, st, [SubmitAmount, e3]);
      r.marks == [] && r.state == st
  {
    RunTwo(Corrected, st, SubmitAmount, e3);
  }
}
