/**
  The diagnostics and menu logic of App/Interface/interface.c.

  `diff_spi_state_change` compares a device's previous and current status
  word and prints one line per changed bit of interest, in a fixed order:
  chip-select, error, abort, completion.  Here each printed line is a
  `Report` event (`ReportText` gives the characters), the caller's copy of
  the previous state is an in/out value, and the result says whether the
  ERROR bit changed.  `interface_loop` either initialises the SPI layer or
  reads a one-character selection and picks a loopback test.
*/
module Interface {

  import opened SpiIo
  import opened UartIo

  /** What a report says the device was doing, from its pending bits. */
  datatype OpKind = Transmit | Receive | TransmitAndReceive | Unknown

  datatype Report =
    | CsLine(device: string, falling: bool)
    | OpError(device: string, kind: OpKind)
    | OpAborted(device: string, kind: OpKind)
    | OpCompleted(device: string, kind: OpKind)

  /** The position of a report in the fixed order of the classifier. */
  function Category(r: Report): nat {
    match r
    case CsLine(_, _) => 0
    case OpError(_, _) => 1
    case OpAborted(_, _) => 2
    case OpCompleted(_, _) => 3
  }

  /**
    The operation named in an error, abort or completion report.  TX_PENDING
    is tested before RX_PENDING, so the third test (TX_RX_PENDING, which
    holds only when one of those bits is set) never decides: a state with
    both pending bits reports "Transmit".
  */
  function Classify(s: bv8): (k: OpKind)
    ensures k == Transmit <==> s & StateTxPending != 0
    ensures k == Receive <==> s & StateTxPending == 0 && s & StateRxPending != 0
    ensures k == Unknown <==> s & StateTxRxPending == 0
    ensures k != TransmitAndReceive
  {
    if s & StateTxPending != 0 then Transmit
    else if s & StateRxPending != 0 then Receive
    else if s & StateTxRxPending != 0 then TransmitAndReceive
    else Unknown
  }

  function KindText(k: OpKind): string {
    match k
    case Transmit => "Transmit."
    case Receive => "Receive."
    case TransmitAndReceive => "Transmit and Receive."
    case Unknown => "Unknown."
  }

  /** The characters a report prints: the device name, the message, then CR LF. */
  function ReportText(r: Report): (text: string)
    ensures |r.device| <= |text| && text[..|r.device|] == r.device
    ensures |text| >= 2 && text[|text| - 2..] == "\r\n"
  {
    var body := match r
      case CsLine(_, falling) => " reports CS line: " + (if falling then "Falling Edge." else "Rising Edge.")
      case OpError(_, k) => " reports error during operation: " + KindText(k)
      case OpAborted(_, k) => " aborted operation: " + KindText(k)
      case OpCompleted(_, k) => " completed operation: " + KindText(k);
    var text := r.device + body + "\r\n";
    assert text[..|r.device|] == r.device;
    text
  }

  /** A one-report section of the output, present when its bit changed. */
  function ReportIf(changed: bool, r: Report): seq<Report> {
    if changed then [r] else []
  }

  /** Whether any of the bits in `flag` differ between the two status words. */
  predicate Changed(previous: bv8, current: bv8, flag: bv8) {
    (current ^ previous) & flag != 0
  }

  /**
    The four report sections in their fixed order, given which categories
    changed, whether the CS line fell, and the operation kind to name.
  */
  function Sections(sel: bool, err: bool, abort: bool, cplt: bool,
                    falling: bool, kind: OpKind, deviceName: string): seq<Report> {
    ReportIf(sel, CsLine(deviceName, falling))
    + ReportIf(err, OpError(deviceName, kind))
    + ReportIf(abort, OpAborted(deviceName, kind))
    + ReportIf(cplt, OpCompleted(deviceName, kind))
  }

  /** The reports for one comparison: a section per category, in category order. */
  function DiffReports(previous: bv8, current: bv8, deviceName: string): seq<Report> {
    Sections(Changed(previous, current, StateSelected), Changed(previous, current, StateError),
             Changed(previous, current, StateAbort), Changed(previous, current, StateCplt),
             current & StateSelected != 0, Classify(current), deviceName)
  }

  /** Equal status words differ in no bit. */
  lemma UnchangedWord(s: bv8, flag: bv8)
    ensures !Changed(s, s, flag)
  {
    assert s ^ s == 0;
  }

  lemma SectionsPresence(sel: bool, err: bool, abort: bool, cplt: bool,
                         falling: bool, kind: OpKind, deviceName: string)
    ensures var reports := Sections(sel, err, abort, cplt, falling, kind, deviceName);
      && (CsLine(deviceName, falling) in reports <==> sel)
      && (OpError(deviceName, kind) in reports <==> err)
      && (OpAborted(deviceName, kind) in reports <==> abort)
      && (OpCompleted(deviceName, kind) in reports <==> cplt)
      && (!sel && !err && !abort && !cplt ==> reports == [])
  {
    var p0 := ReportIf(sel, CsLine(deviceName, falling));
    var p1 := ReportIf(err, OpError(deviceName, kind));
    var p2 := ReportIf(abort, OpAborted(deviceName, kind));
    var p3 := ReportIf(cplt, OpCompleted(deviceName, kind));
    assert forall r :: r in p0 + p1 + p2 + p3 <==> r in p0 || r in p1 || r in p2 || r in p3;
  }

  /**
    A report appears for a category exactly when its status bit differs
    between the two states (completion is keyed on bit 0x01), and it is the
    report for the current state; equal states give no report at all.
  */
  lemma DiffReportsPresence(previous: bv8, current: bv8, deviceName: string)
    ensures var reports := DiffReports(previous, current, deviceName);
      && (CsLine(deviceName, current & StateSelected != 0) in reports <==> Changed(previous, current, StateSelected))
      && (OpError(deviceName, Classify(current)) in reports <==> Changed(previous, current, StateError))
      && (OpAborted(deviceName, Classify(current)) in reports <==> Changed(previous, current, StateAbort))
      && (OpCompleted(deviceName, Classify(current)) in reports <==> Changed(previous, current, StateCplt))
      && (previous == current ==> reports == [])
  {
    SectionsPresence(Changed(previous, current, StateSelected), Changed(previous, current, StateError),
                     Changed(previous, current, StateAbort), Changed(previous, current, StateCplt),
                     current & StateSelected != 0, Classify(current), deviceName);
    if previous == current {
      UnchangedWord(current, StateSelected);
      UnchangedWord(current, StateError);
      UnchangedWord(current, StateAbort);
      UnchangedWord(current, StateCplt);
    }
  }

  /** Categories strictly increase along `reports`. */
  ghost predicate InCategoryOrder(reports: seq<Report>) {
    forall k, l :: 0 <= k < l < |reports| ==> Category(reports[k]) < Category(reports[l])
  }

  /** Every report in `reports` has a category in `lo..hi-1`. */
  ghost predicate CategoriesWithin(reports: seq<Report>, lo: nat, hi: nat) {
    forall k :: 0 <= k < |reports| ==> lo <= Category(reports[k]) < hi
  }

  /** Two optional reports of increasing category are in order. */
  lemma PairInOrder(b0: bool, r0: Report, b1: bool, r1: Report)
    requires Category(r0) < Category(r1)
    ensures var pair := ReportIf(b0, r0) + ReportIf(b1, r1);
      InCategoryOrder(pair) && CategoriesWithin(pair, Category(r0), Category(r1) + 1)
  {
    if b0 && b1 {
      assert ReportIf(b0, r0) + ReportIf(b1, r1) == [r0, r1];
    }
  }

  /** Ordered reports followed by ordered reports of higher categories are in order. */
  lemma JoinInOrder(front: seq<Report>, back: seq<Report>, c: nat)
    requires InCategoryOrder(front) && CategoriesWithin(front, 0, c)
    requires InCategoryOrder(back) && CategoriesWithin(back, c, c + 2)
    ensures InCategoryOrder(front + back)
  {
    forall k, l | 0 <= k < l < |front + back|
      ensures Category((front + back)[k]) < Category((front + back)[l])
    {
      if l < |front| {
      } else if k >= |front| {
        assert (front + back)[k] == back[k - |front|];
      }
    }
  }

  lemma SectionsOrdered(sel: bool, err: bool, abort: bool, cplt: bool,
                        falling: bool, kind: OpKind, deviceName: string)
    ensures InCategoryOrder(Sections(sel, err, abort, cplt, falling, kind, deviceName))
  {
    var front := ReportIf(sel, CsLine(deviceName, falling)) + ReportIf(err, OpError(deviceName, kind));
    var back := ReportIf(abort, OpAborted(deviceName, kind)) + ReportIf(cplt, OpCompleted(deviceName, kind));
    PairInOrder(sel, CsLine(deviceName, falling), err, OpError(deviceName, kind));
    PairInOrder(abort, OpAborted(deviceName, kind), cplt, OpCompleted(deviceName, kind));
    JoinInOrder(front, back, 2);
    SectionsSplit(sel, err, abort, cplt, falling, kind, deviceName);
  }

  lemma SectionsSplit(sel: bool, err: bool, abort: bool, cplt: bool,
                      falling: bool, kind: OpKind, deviceName: string)
    ensures Sections(sel, err, abort, cplt, falling, kind, deviceName)
      == (ReportIf(sel, CsLine(deviceName, falling)) + ReportIf(err, OpError(deviceName, kind)))
       + (ReportIf(abort, OpAborted(deviceName, kind)) + ReportIf(cplt, OpCompleted(deviceName, kind)))
  {
  }

  /** Reports come in the fixed order selection, error, abort, completion, at most one each. */
  lemma DiffReportsOrdered(previous: bv8, current: bv8, deviceName: string)
    ensures var reports := DiffReports(previous, current, deviceName);
      forall k, l :: 0 <= k < l < |reports| ==> Category(reports[k]) < Category(reports[l])
  {
    SectionsOrdered(Changed(previous, current, StateSelected), Changed(previous, current, StateError),
                    Changed(previous, current, StateAbort), Changed(previous, current, StateCplt),
                    current & StateSelected != 0, Classify(current), deviceName);
  }

  /**
    Every report names the device; the CS report says "falling" exactly when
    the current state is selected; the others name `Classify(current)`.
  */
  lemma DiffReportsContents(previous: bv8, current: bv8, deviceName: string)
    ensures forall r :: r in DiffReports(previous, current, deviceName) ==>
      && r.device == deviceName
      && (r.CsLine? ==> r.falling == (current & StateSelected != 0))
      && (!r.CsLine? ==> r.kind == Classify(current))
  {
    var kind := Classify(current);
    var p0 := ReportIf(Changed(previous, current, StateSelected), CsLine(deviceName, current & StateSelected != 0));
    var p1 := ReportIf(Changed(previous, current, StateError), OpError(deviceName, kind));
    var p2 := ReportIf(Changed(previous, current, StateAbort), OpAborted(deviceName, kind));
    var p3 := ReportIf(Changed(previous, current, StateCplt), OpCompleted(deviceName, kind));
    assert forall r :: r in p0 + p1 + p2 + p3 ==> r in p0 || r in p1 || r in p2 || r in p3;
  }

  /**
    `diff_spi_state_change(&previous, &current, name)`.  `updated` is the
    caller's copy of the previous state after the call, `reports` the lines
    printed (their meaning is proved in `DiffReportsPresence`,
    `DiffReportsOrdered` and `DiffReportsContents`), and `error` is true
    exactly when ERROR differs, whether it was set or cleared.
  */
  method DiffStateChange(previous: bv8, current: bv8, deviceName: string)
    returns (updated: bv8, reports: seq<Report>, error: bool)
    ensures current == previous ==> updated == previous && reports == [] && !error
    ensures updated == current
    ensures error <==> Changed(previous, current, StateError)
    ensures reports == DiffReports(previous, current, deviceName)
  {
    var delta := current ^ previous;
    ghost var kind := Classify(current);
    ghost var p0 := ReportIf(Changed(previous, current, StateSelected), CsLine(deviceName, current & StateSelected != 0));
    ghost var p1 := ReportIf(Changed(previous, current, StateError), OpError(deviceName, kind));
    ghost var p2 := ReportIf(Changed(previous, current, StateAbort), OpAborted(deviceName, kind));
    ghost var p3 := ReportIf(Changed(previous, current, StateCplt), OpCompleted(deviceName, kind));
    error := false;
    updated := previous;
    reports := [];
    if delta != 0 {
      if delta & StateSelected != 0 {
        reports := reports + [CsLine(deviceName, current & StateSelected != 0)];
      }
      assert reports == p0;
      if delta & StateError != 0 {
        error := true;
        reports := reports + [OpError(deviceName, Classify(current))];
      }
      assert reports == p0 + p1;
      if delta & StateAbort != 0 {
        reports := reports + [OpAborted(deviceName, Classify(current))];
      }
      assert reports == p0 + p1 + p2;
      if delta & StateCplt != 0 {
        reports := reports + [OpCompleted(deviceName, Classify(current))];
      }
      assert reports == p0 + p1 + p2 + p3;
      updated := current;
    } else {
      NoDelta(previous, current);
    }
  }

  /** A zero XOR means the words are equal and no bit changed. */
  lemma NoDelta(previous: bv8, current: bv8)
    requires current ^ previous == 0
    ensures current == previous
    ensures forall flag :: !Changed(previous, current, flag)
  {
    assert current == (current ^ previous) ^ previous;
  }

  /**
    `clear_spi_states(&controller.state, &target.state)`: both status words
    become PENDING (zero); nothing else in the table changes.
  */
  method ClearSpiStates(registry: Registry, controller: DeviceIndex, target: DeviceIndex)
    requires registry.Valid()
    modifies {registry.devices[controller], registry.devices[target]}`state
    ensures registry.Valid()
    ensures registry.devices[controller].state == StatePending && registry.devices[target].state == StatePending
  {
    registry.devices[controller].state := StatePending;
    registry.devices[target].state := StatePending;
  }

  /** What one pass of `interface_loop` does. */
  datatype Action = InitializeSpi | LoopbackTest(controller: Handle, target: Handle) | InvalidSelection

  /** The selection `switch`: '1' tests SPI1 to SPI3, '2' SPI1 to SPI5, anything else is invalid. */
  function SelectTest(c: Byte): (a: Action)
    ensures a.LoopbackTest? <==> c == '1' as Byte || c == '2' as Byte
    ensures a.LoopbackTest? ==> a.controller == Hspi1 && a.target != Hspi1
    ensures a.LoopbackTest? ==> Lookup(a.controller).Some? && Lookup(a.target).Some?
    ensures c == '1' as Byte ==> a.target == Hspi3
    ensures c == '2' as Byte ==> a.target == Hspi5
    ensures a != InitializeSpi
  {
    if c == '1' as Byte then LoopbackTest(Hspi1, Hspi3)
    else if c == '2' as Byte then LoopbackTest(Hspi1, Hspi5)
    else InvalidSelection
  }

  /** The first byte of a line buffer that was zeroed before editing. */
  function FirstByte(line: seq<Byte>): Byte {
    if |line| > 0 then line[0] else Nul
  }

  /**
    `interface_loop`.  Before the SPI layer is initialised the pass only
    initialises it and reads nothing; afterwards it reads a line of at most
    one character into an 8-byte buffer and dispatches on its first byte.
    `echoed` is what `serial_scan` sends back while the selection is typed;
    the length it returns is not used by `interface_loop`.
  */
  method InterfaceLoop(initialized: bool, keys: seq<Byte>)
    returns (action: Action, consumed: nat, echoed: seq<Byte>)
    requires initialized ==> HasTerminator(keys)
    ensures !initialized ==> action == InitializeSpi && consumed == 0 && echoed == []
    ensures initialized ==> consumed == TerminatorIndex(keys) + 1
    ensures initialized ==> action == SelectTest(FirstByte(ScannedLine(keys, 1)))
    ensures initialized ==> echoed == Echo(keys[..TerminatorIndex(keys)], 1) + Newline
  {
    if !initialized {
      return InitializeSpi, 0, [];
    }
    var buff := new Byte[8](_ => Nul);
    var length;
    length, consumed, echoed := SerialScan(buff, 1, keys);
    action := SelectTest(buff[0]);
  }

  /**
    The menu answers to the first key typed: with room for one character,
    later keys are dropped, so typing "12" and Enter selects test 1.
  */
  lemma FirstKeySelects(keys: seq<Byte>)
    requires HasTerminator(keys) && TerminatorIndex(keys) > 0
    requires forall k :: 0 <= k < TerminatorIndex(keys) ==> keys[k] != Backspace
    ensures FirstByte(ScannedLine(keys, 1)) == keys[0]
  {
    PlainTypingTruncates(keys[..TerminatorIndex(keys)], 1);
  }
}
