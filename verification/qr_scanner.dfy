/**
 * The QR scanner's barcode handler and its single-flight lock. A mounted
 * scanner starts unlocked; the lock is taken by the first event with data
 * and released only when that data turns out to be blank.
 */
module QrScanner {
  import opened Text

  /** What one barcode event does besides moving the lock. */
  datatype Effect =
    | Ignored
      /** The "invalid QR" alert; no callback. */
    | InvalidQr
      /** The `onQRScanned` callback with the trimmed data. */
    | Delivered(giftCardId: string)

  datatype Step = Step(locked: bool, effect: Effect)

  /** A freshly mounted scanner's lock. */
  const Unlocked := false

  /**
   * `handleBarcodeScanned`: an event with empty data, or any event while
   * locked, is ignored; otherwise the lock is taken, blank data raises the
   * alert and releases it, and anything else is delivered trimmed.
   */
  function HandleBarcodeScanned(locked: bool, data: string): (r: Step)
    ensures data == [] || locked ==> r == Step(locked, Ignored)
    ensures r.effect.InvalidQr? ==> !r.locked
    ensures r.effect.Delivered? ==> r.locked && r.effect.giftCardId == Trim(data)
  {
    if data != [] && !locked then
      if Trim(data) == [] then Step(false, InvalidQr)
      else Step(true, Delivered(Trim(data)))
    else Step(locked, Ignored)
  }

  /**
   * For an unlocked scanner and non-empty data: the event is rejected as
   * invalid exactly when the data is all white space, and delivered
   * otherwise.
   */
  lemma HandleUnlocked(data: string)
    requires data != []
    ensures var r := HandleBarcodeScanned(Unlocked, data);
      && (r == Step(false, InvalidQr) <==> forall i :: 0 <= i < |data| ==> IsSpace(data[i]))
      && (r.effect.Delivered? <==> exists i :: 0 <= i < |data| && !IsSpace(data[i]))
  {
    TrimEmpty(data);
  }

  /** Every delivered id is non-empty and has no white space at either end. */
  lemma DeliveredIsTrimmed(locked: bool, data: string)
    ensures var r := HandleBarcodeScanned(locked, data);
      r.effect.Delivered? ==>
        var id := r.effect.giftCardId;
        id != [] && !IsSpace(id[0]) && !IsSpace(id[|id| - 1])
  {
    TrimEnds(data);
  }

  datatype Session = Session(locked: bool, delivered: seq<string>)

  /** Feed a sequence of barcode events to one scanner instance. */
  function Scan(locked: bool, events: seq<string>): (r: Session)
    decreases |events|
  {
    if events == [] then Session(locked, [])
    else
      var step := HandleBarcodeScanned(locked, events[0]);
      var rest := Scan(step.locked, events[1..]);
      match step.effect
      case Delivered(id) => Session(rest.locked, [id] + rest.delivered)
      case _ => Session(rest.locked, rest.delivered)
  }

  /** A locked scanner delivers nothing and stays locked. */
  lemma {:induction false} LockedScannerIsSilent(events: seq<string>)
    ensures Scan(true, events) == Session(true, [])
    decreases |events|
  {
    if events != [] {
      LockedScannerIsSilent(events[1..]);
    }
  }

  /** Blank data: nothing left once trimmed (the empty string included). */
  predicate Blank(data: string) {
    Trim(data) == []
  }

  /** Some event carries non-blank data. */
  predicate HasNonBlank(events: seq<string>) {
    exists i :: 0 <= i < |events| && !Blank(events[i])
  }

  lemma EmptyIsBlank()
    ensures Blank([])
  {
  }

  /** An unlocked scanner passes over a blank event unchanged. */
  lemma BlankEventKeepsUnlocked(data: string)
    requires Blank(data)
    ensures HandleBarcodeScanned(Unlocked, data).locked == Unlocked
    ensures !HandleBarcodeScanned(Unlocked, data).effect.Delivered?
  {
  }

  lemma HasNonBlankCons(events: seq<string>)
    requires events != []
    ensures HasNonBlank(events) <==> !Blank(events[0]) || HasNonBlank(events[1..])
  {
    if HasNonBlank(events) && Blank(events[0]) {
      var i :| 0 <= i < |events| && !Blank(events[i]);
      assert events[1..][i - 1] == events[i];
    }
    if HasNonBlank(events[1..]) {
      var i :| 0 <= i < |events[1..]| && !Blank(events[1..][i]);
      assert events[i + 1] == events[1..][i];
    }
  }

  /**
   * Single flight: over any sequence of events on one scanner instance, the
   * callback fires at most once, exactly when some event carries non-blank
   * data, and the lock is held afterwards exactly when it fired.
   */
  lemma {:induction false} SingleFlight(events: seq<string>)
    ensures var r := Scan(Unlocked, events);
      && |r.delivered| <= 1
      && (|r.delivered| == 1 <==> HasNonBlank(events))
      && (r.locked <==> |r.delivered| == 1)
    decreases |events|
  {
    if events != [] {
      HasNonBlankCons(events);
      if Blank(events[0]) {
        ScanSkipsBlank(events);
        SingleFlight(events[1..]);
      } else {
        ScanTakesNonBlank(events);
      }
    }
  }

  /** An unlocked scanner passes over a leading blank event unchanged. */
  lemma ScanSkipsBlank(events: seq<string>)
    requires events != [] && Blank(events[0])
    ensures Scan(Unlocked, events) == Scan(Unlocked, events[1..])
  {
    BlankEventKeepsUnlocked(events[0]);
  }

  /** An unlocked scanner delivers a leading non-blank event and nothing after it. */
  lemma ScanTakesNonBlank(events: seq<string>)
    requires events != [] && !Blank(events[0])
    ensures Scan(Unlocked, events) == Session(true, [Trim(events[0])])
  {
    assert events[0] != [] by {
      EmptyIsBlank();
    }
    LockedScannerIsSilent(events[1..]);
    assert [Trim(events[0])] + [] == [Trim(events[0])];
  }

  /** What the callback receives is the first non-blank data, trimmed. */
  lemma {:induction false} DeliversFirstNonBlank(events: seq<string>, i: nat)
    requires i < |events| && !Blank(events[i])
    requires forall j :: 0 <= j < i ==> Blank(events[j])
    ensures Scan(Unlocked, events).delivered == [Trim(events[i])]
    decreases i
  {
    if i == 0 {
      ScanTakesNonBlank(events);
    } else {
      ScanSkipsBlank(events);
      forall j | 0 <= j < i - 1
        ensures Blank(events[1..][j])
      {
        assert events[1..][j] == events[j + 1];
      }
      DeliversFirstNonBlank(events[1..], i - 1);
    }
  }
}
