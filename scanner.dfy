/**
 * EmbeddedFragmentScannerMLKit: which barcode formats the ML Kit scanner is
 * configured for, when a scan result is accepted, and the small state machine
 * that opens and closes the scanner as the scanner view is shown and hidden.
 * The camera, ML Kit, permissions, haptics and the window are not modelled;
 * their observable state (camera bound, screen kept on, rotation locked,
 * permission requests) is kept as plain fields.
 */
module Scanner {
  import opened Wrappers
  import Sorting

  // ---------------------------------------------------------------------------
  // Barcode formats
  // ---------------------------------------------------------------------------

  /** The formats the scanner settings offer. */
  datatype BarcodeFormat =
    | Code128 | Code39 | Code93 | Ean13 | Ean8 | Itf | UpcA | UpcE | QrCode | Pdf417 | DataMatrix | Codabar | Aztec

  /** An entry of the preference string set: a recognised format name, or anything else. */
  datatype FormatPref = Pref(format: BarcodeFormat) | Unrecognised(value: string)

  /** ML Kit's Barcode.FORMAT_* constant of a format. */
  function FormatCode(f: BarcodeFormat): int
  {
    match f
    case Code128 => 1
    case Code39 => 2
    case Code93 => 4
    case Codabar => 8
    case DataMatrix => 16
    case Ean13 => 32
    case Ean8 => 64
    case Itf => 128
    case QrCode => 256
    case UpcA => 512
    case UpcE => 1024
    case Pdf417 => 2048
    case Aztec => 4096
  }

  /** The format an ML Kit constant stands for, if any. */
  function FormatOfCode(c: int): (r: Option<BarcodeFormat>)
    ensures r.Some? ==> FormatCode(r.value) == c
  {
    if c == 1 then Some(Code128)
    else if c == 2 then Some(Code39)
    else if c == 4 then Some(Code93)
    else if c == 8 then Some(Codabar)
    else if c == 16 then Some(DataMatrix)
    else if c == 32 then Some(Ean13)
    else if c == 64 then Some(Ean8)
    else if c == 128 then Some(Itf)
    else if c == 256 then Some(QrCode)
    else if c == 512 then Some(UpcA)
    else if c == 1024 then Some(UpcE)
    else if c == 2048 then Some(Pdf417)
    else if c == 4096 then Some(Aztec)
    else None
  }

  /** Every format has its own constant, and FormatOfCode reads it back. */
  lemma FormatCodeRoundTrip(f: BarcodeFormat, g: BarcodeFormat)
    ensures FormatOfCode(FormatCode(f)) == Some(f)
    ensures FormatCode(f) == FormatCode(g) ==> f == g
  {
  }

  /** An ML Kit format constant of one of the offered formats. */
  predicate IsFormatCode(c: int)
  {
    FormatOfCode(c).Some?
  }

  /**
   * What getEnabledBarcodeFormats promises: only format constants; a format
   * is in the list exactly when the preferences name it (and the QR filter is
   * off) or it is QR and QR is asked for; no constant twice; and with the QR
   * filter on, QR alone.
   */
  ghost predicate EnabledFormats(prefs: set<FormatPref>, qrCodeFormat: bool, qrCodeFilter: bool, formats: seq<int>)
  {
    && (forall i :: 0 <= i < |formats| ==> IsFormatCode(formats[i]))
    && (forall f :: FormatCode(f) in formats <==>
          (Pref(f) in prefs && !qrCodeFilter) || (f == QrCode && (qrCodeFormat || qrCodeFilter)))
    && Sorting.NoDuplicates(formats)
    && (qrCodeFilter ==> formats == [FormatCode(QrCode)])
  }

  /**
   * getEnabledBarcodeFormats: one constant per recognised preference, in the
   * set's iteration order (which Java leaves unspecified), then QR when QR
   * codes are wanted and missing, or when only QR codes are accepted.
   */
  method EnabledBarcodeFormats(prefs: set<FormatPref>, qrCodeFormat: bool, qrCodeFilter: bool)
    returns (formats: seq<int>)
    ensures EnabledFormats(prefs, qrCodeFormat, qrCodeFilter, formats)
  {
    formats := [];
    if prefs != {} && !qrCodeFilter {
      var remaining := prefs;
      while remaining != {}
        invariant remaining <= prefs
        invariant CollectedFormats(prefs - remaining, formats)
        decreases remaining
      {
        var barcodeFormat :| barcodeFormat in remaining;
        CollectStep(prefs - remaining, formats, barcodeFormat);
        assert prefs - (remaining - {barcodeFormat}) == (prefs - remaining) + {barcodeFormat};
        if barcodeFormat.Pref? {
          formats := formats + [FormatCode(barcodeFormat.format)];
        }
        remaining := remaining - {barcodeFormat};
      }
      assert prefs - remaining == prefs;
    }
    var seen := if qrCodeFilter then {} else prefs;
    assert CollectedFormats(seen, formats);
    ghost var collected := formats;
    var addQr := (qrCodeFormat && FormatCode(QrCode) !in formats) || qrCodeFilter;
    if addQr {
      formats := formats + [FormatCode(QrCode)];
    }
    CollectedWithQr(prefs, seen, collected, addQr, qrCodeFormat, qrCodeFilter);
  }

  /** The formats collected from the preferences looked at so far: exactly theirs, once each. */
  ghost predicate CollectedFormats(seen: set<FormatPref>, formats: seq<int>)
  {
    && (forall i :: 0 <= i < |formats| ==> IsFormatCode(formats[i]))
    && (forall f :: FormatCode(f) in formats <==> Pref(f) in seen)
    && Sorting.NoDuplicates(formats)
  }

  /** One more preference looked at: its constant joins the list if it is a format. */
  lemma CollectStep(seen: set<FormatPref>, formats: seq<int>, p: FormatPref)
    requires CollectedFormats(seen, formats) && p !in seen
    ensures CollectedFormats(seen + {p}, if p.Pref? then formats + [FormatCode(p.format)] else formats)
  {
    if p.Pref? {
      FormatCodeRoundTrip(p.format, p.format);
      AppendFresh(formats, FormatCode(p.format));
      var next := formats + [FormatCode(p.format)];
      forall f ensures FormatCode(f) in next <==> Pref(f) in seen + {p} {
        FormatCodeRoundTrip(f, p.format);
      }
    }
  }

  /** Adding QR at the end completes what getEnabledBarcodeFormats promises. */
  lemma CollectedWithQr(prefs: set<FormatPref>, seen: set<FormatPref>, formats: seq<int>, addQr: bool,
                        qrCodeFormat: bool, qrCodeFilter: bool)
    requires CollectedFormats(seen, formats)
    requires seen == (if qrCodeFilter then {} else prefs)
    requires qrCodeFilter ==> formats == []
    requires addQr == ((qrCodeFormat && FormatCode(QrCode) !in formats) || qrCodeFilter)
    ensures EnabledFormats(prefs, qrCodeFormat, qrCodeFilter, if addQr then formats + [FormatCode(QrCode)] else formats)
  {
    var result := if addQr then formats + [FormatCode(QrCode)] else formats;
    if addQr && FormatCode(QrCode) !in formats {
      AppendFresh(formats, FormatCode(QrCode));
    }
    forall f ensures FormatCode(f) in result <==>
      (Pref(f) in prefs && !qrCodeFilter) || (f == QrCode && (qrCodeFormat || qrCodeFilter))
    {
      FormatCodeRoundTrip(f, QrCode);
    }
  }

  /** Appending a value the sequence lacks keeps it free of repetitions. */
  lemma AppendFresh(s: seq<int>, x: int)
    requires Sorting.NoDuplicates(s) && x !in s
    ensures Sorting.NoDuplicates(s + [x])
  {
  }

  /** With QR codes wanted, QR is enabled exactly once. */
  lemma QrExactlyOnce(prefs: set<FormatPref>, qrCodeFormat: bool, qrCodeFilter: bool, formats: seq<int>)
    requires EnabledFormats(prefs, qrCodeFormat, qrCodeFilter, formats)
    requires qrCodeFormat || qrCodeFilter
    ensures multiset(formats)[FormatCode(QrCode)] == 1
  {
    Sorting.NoDuplicatesCount(formats, FormatCode(QrCode));
  }

  /** Scanning for QR codes never leaves the options at ML Kit's default of every format. */
  lemma QrOptionsNeverDefault(prefs: set<FormatPref>, qrCodeFormat: bool, qrCodeFilter: bool, o: ScannerOptions)
    requires EnabledFormats(prefs, qrCodeFormat, qrCodeFilter, OptionFormats(o))
    requires qrCodeFormat || qrCodeFilter
    ensures o.WithFormats?
    ensures qrCodeFilter ==> o == WithFormats(FormatCode(QrCode), [])
  {
    assert FormatCode(QrCode) in OptionFormats(o);
    if qrCodeFilter {
      assert [o.first] + o.more == [FormatCode(QrCode)];
      assert o.more == [FormatCode(QrCode)][1..];
    }
  }

  /** Unrecognised preference strings change nothing. */
  lemma UnrecognisedIgnored(prefs: set<FormatPref>, s: string, qrCodeFormat: bool, qrCodeFilter: bool, formats: seq<int>)
    requires EnabledFormats(prefs + {Unrecognised(s)}, qrCodeFormat, qrCodeFilter, formats)
    ensures EnabledFormats(prefs, qrCodeFormat, qrCodeFilter, formats)
  {
    forall f ensures FormatCode(f) in formats <==>
      (Pref(f) in prefs && !qrCodeFilter) || (f == QrCode && (qrCodeFormat || qrCodeFilter))
    {
      assert Pref(f) in prefs + {Unrecognised(s)} <==> Pref(f) in prefs;
    }
  }

  /** convertIntegers: a new int array holding the list's values in order. */
  method ConvertIntegers(integers: seq<int>) returns (ret: array<int>)
    ensures fresh(ret)
    ensures ret.Length == |integers|
    ensures ret[..] == integers
  {
    ret := new int[|integers|];
    for i := 0 to ret.Length
      invariant ret[..i] == integers[..i]
    {
      ret[i] := integers[i];
    }
  }

  /** BarcodeScannerOptions: ML Kit's default (every format) or a first format and more. */
  datatype ScannerOptions = DefaultOptions | WithFormats(first: int, more: seq<int>)

  /** The format constants options name, in order; none for the default. */
  function OptionFormats(o: ScannerOptions): seq<int>
  {
    match o
    case DefaultOptions => []
    case WithFormats(first, more) => [first] + more
  }

  /**
   * The options builder of the constructor: left at its default for an empty
   * list, otherwise given the first format and the rest as an int array; the
   * options then name exactly the enabled formats, in order.
   */
  method BuildOptions(enabledBarcodeFormats: seq<int>) returns (o: ScannerOptions)
    ensures o.DefaultOptions? <==> enabledBarcodeFormats == []
    ensures OptionFormats(o) == enabledBarcodeFormats
  {
    o := DefaultOptions;
    if |enabledBarcodeFormats| == 1 {
      o := WithFormats(enabledBarcodeFormats[0], []);
    } else if |enabledBarcodeFormats| > 1 {
      var afterFirst := ConvertIntegers(enabledBarcodeFormats[1..]);
      o := WithFormats(enabledBarcodeFormats[0], afterFirst[..]);
    }
  }

  // ---------------------------------------------------------------------------
  // Accepting a scan
  // ---------------------------------------------------------------------------

  datatype Point = Point(x: int, y: int)

  /** A detected barcode; Java's nulls are None. */
  datatype Barcode = Barcode(rawValue: Option<string>, cornerPoints: Option<seq<Point>>)

  /** A corner outside the preview inset by twice the card's stroke width. */
  predicate OutsidePreview(p: Point, strokeWidth: int, width: int, height: int)
  {
    p.x < strokeWidth * 2 || p.y < strokeWidth * 2
    || p.x > width - strokeWidth * 2 || p.y > height - strokeWidth * 2
  }

  /** How many of the points lie outside the inset preview. */
  function CountOutside(points: seq<Point>, strokeWidth: int, width: int, height: int): (n: nat)
    ensures n <= |points|
  {
    if points == [] then 0
    else
      CountOutside(points[..|points| - 1], strokeWidth, width, height)
        + (if OutsidePreview(points[|points| - 1], strokeWidth, width, height) then 1 else 0)
  }

  /**
   * The raw value onScanSuccess hands on, if any: the list holds exactly one
   * barcode, with a non-empty raw value and corner points of which at most
   * two lie outside the inset preview.
   */
  function AcceptedValue(barcodes: Option<seq<Option<Barcode>>>, strokeWidth: int, width: int, height: int): (r: Option<string>)
    ensures r.Some? <==>
      && barcodes.Some? && |barcodes.value| == 1 && barcodes.value[0].Some?
      && barcodes.value[0].value.rawValue.Some? && barcodes.value[0].value.rawValue.value != ""
      && barcodes.value[0].value.cornerPoints.Some?
      && CountOutside(barcodes.value[0].value.cornerPoints.value, strokeWidth, width, height) <= 2
    ensures r.Some? ==> r == barcodes.value[0].value.rawValue
  {
    if barcodes.None? || |barcodes.value| != 1 || barcodes.value[0].None?
       || barcodes.value[0].value.rawValue.None? || barcodes.value[0].value.rawValue.value == "" then None
    else if barcodes.value[0].value.cornerPoints.None? then None
    else if CountOutside(barcodes.value[0].value.cornerPoints.value, strokeWidth, width, height) > 2 then None
    else barcodes.value[0].value.rawValue
  }

  /** The corner loop of onScanSuccess: gives up as soon as a third corner lies outside. */
  method CornersAcceptable(cornerPoints: seq<Point>, strokeWidth: int, width: int, height: int) returns (ok: bool)
    ensures ok <==> CountOutside(cornerPoints, strokeWidth, width, height) <= 2
  {
    var pointsOutsidePreview := 0;
    for i := 0 to |cornerPoints|
      invariant pointsOutsidePreview == CountOutside(cornerPoints[..i], strokeWidth, width, height)
      invariant pointsOutsidePreview <= 2
    {
      assert cornerPoints[..i + 1][..i] == cornerPoints[..i];
      if OutsidePreview(cornerPoints[i], strokeWidth, width, height) {
        pointsOutsidePreview := pointsOutsidePreview + 1;
        if pointsOutsidePreview > 2 {
          CountOutsideGrows(cornerPoints, i + 1, strokeWidth, width, height);
          return false;
        }
      }
    }
    assert cornerPoints[..|cornerPoints|] == cornerPoints;
    return true;
  }

  /** Corners counted outside stay counted as more corners are looked at. */
  lemma {:induction false} CountOutsideGrows(points: seq<Point>, n: nat, strokeWidth: int, width: int, height: int)
    requires n <= |points|
    ensures CountOutside(points[..n], strokeWidth, width, height) <= CountOutside(points, strokeWidth, width, height)
    decreases |points| - n
  {
    if n < |points| {
      CountOutsideGrows(points, n + 1, strokeWidth, width, height);
      assert points[..n + 1][..n] == points[..n];
    } else {
      assert points[..n] == points;
    }
  }

  /** A barcode whose corners all lie inside the inset preview is accepted whenever its raw value is non-empty. */
  lemma InsideCornersAccepted(raw: string, corners: seq<Point>, strokeWidth: int, width: int, height: int)
    requires raw != ""
    requires forall i :: 0 <= i < |corners| ==> !OutsidePreview(corners[i], strokeWidth, width, height)
    ensures AcceptedValue(Some([Some(Barcode(Some(raw), Some(corners)))]), strokeWidth, width, height) == Some(raw)
  {
    NoCornerOutside(corners, strokeWidth, width, height);
  }

  lemma {:induction false} NoCornerOutside(corners: seq<Point>, strokeWidth: int, width: int, height: int)
    requires forall i :: 0 <= i < |corners| ==> !OutsidePreview(corners[i], strokeWidth, width, height)
    ensures CountOutside(corners, strokeWidth, width, height) == 0
  {
    if corners != [] {
      NoCornerOutside(corners[..|corners| - 1], strokeWidth, width, height);
    }
  }

  /** Two barcodes in one frame are never accepted, whatever they hold. */
  lemma TwoBarcodesIgnored(a: Option<Barcode>, b: Option<Barcode>, strokeWidth: int, width: int, height: int)
    ensures AcceptedValue(Some([a, b]), strokeWidth, width, height).None?
  {
  }

  // ---------------------------------------------------------------------------
  // The scanner object
  // ---------------------------------------------------------------------------

  class EmbeddedFragmentScannerMLKit {
    const qrCodeFormat: bool
    const qrCodeFilter: bool
    const strokeWidth: int
    const barcodeScannerOptions: ScannerOptions
    var isScannerVisible: bool
    var suppressNextScanStart: bool
    /** The open ML Kit client, with the options it was made from; None is Java's null. */
    var barcodeScanner: Option<ScannerOptions>
    /** Whether the camera controller is bound to the lifecycle. */
    var cameraBound: bool
    /** Whether the window is kept on (keepScreenOn). */
    var screenKeptOn: bool
    /** The last lockOrUnlockRotation call's argument. */
    var rotationLocked: bool
    /** How many times the camera permission was requested. */
    var permissionRequests: nat

    /**
     * A client is open only while the scanner is visible, is always made from
     * the configured options, and the camera is bound and the screen kept on
     * exactly while one is open.
     */
    predicate Valid()
      reads this
    {
      Consistent() && (barcodeScanner.Some? ==> isScannerVisible)
    }

    /** Valid() without the visibility part, which the observer breaks for a moment before stopping the scanner. */
    predicate Consistent()
      reads this
    {
      && (barcodeScanner.Some? ==> barcodeScanner.value == barcodeScannerOptions)
      && (cameraBound <==> barcodeScanner.Some?)
      && (screenKeptOn <==> barcodeScanner.Some?)
    }

    /** The constructor's scanner configuration (the layout sizing is not modelled). */
    constructor(prefs: set<FormatPref>, qrCodeFormat: bool, qrCodeFilter: bool, strokeWidth: int)
      ensures Valid()
      ensures this.qrCodeFormat == qrCodeFormat && this.qrCodeFilter == qrCodeFilter && this.strokeWidth == strokeWidth
      ensures EnabledFormats(prefs, qrCodeFormat, qrCodeFilter, OptionFormats(barcodeScannerOptions))
      ensures !isScannerVisible && !suppressNextScanStart && barcodeScanner.None?
      ensures !cameraBound && !screenKeptOn && !rotationLocked && permissionRequests == 0
    {
      var enabledBarcodeFormats := EnabledBarcodeFormats(prefs, qrCodeFormat, qrCodeFilter);
      var options := BuildOptions(enabledBarcodeFormats);
      this.qrCodeFormat := qrCodeFormat;
      this.qrCodeFilter := qrCodeFilter;
      this.strokeWidth := strokeWidth;
      this.barcodeScannerOptions := options;
      isScannerVisible := false;
      suppressNextScanStart := false;
      barcodeScanner := None;
      cameraBound := false;
      screenKeptOn := false;
      rotationLocked := false;
      permissionRequests := 0;
    }

    /** setScannerVisibilityLive: arms (or disarms) skipping the next scanner start. */
    method SetScannerVisibilityLive(suppressNextScanStart: bool)
      modifies this
      requires Valid()
      ensures Valid()
      ensures this.suppressNextScanStart == suppressNextScanStart
      ensures isScannerVisible == old(isScannerVisible) && barcodeScanner == old(barcodeScanner)
      ensures cameraBound == old(cameraBound) && screenKeptOn == old(screenKeptOn)
      ensures rotationLocked == old(rotationLocked) && permissionRequests == old(permissionRequests)
    {
      this.suppressNextScanStart := suppressNextScanStart;
    }

    /**
     * The visibility observer: a change to visible while a start is to be
     * skipped only clears that flag (and leaves the rotation lock alone);
     * otherwise visible starts the scanner and hidden stops it, and the
     * rotation lock follows the visibility.
     */
    method OnVisibilityChanged(visible: bool, cameraPermitted: bool)
      modifies this
      requires Valid()
      ensures Valid()
      ensures isScannerVisible == visible
      ensures visible && old(suppressNextScanStart) ==>
        !suppressNextScanStart && barcodeScanner == old(barcodeScanner)
        && cameraBound == old(cameraBound) && screenKeptOn == old(screenKeptOn)
        && rotationLocked == old(rotationLocked) && permissionRequests == old(permissionRequests)
      ensures visible && !old(suppressNextScanStart) ==>
        suppressNextScanStart == old(suppressNextScanStart) && rotationLocked
        && (cameraPermitted ==> barcodeScanner == Some(barcodeScannerOptions) && permissionRequests == old(permissionRequests))
        && (!cameraPermitted ==> barcodeScanner == old(barcodeScanner) && permissionRequests == old(permissionRequests) + 1)
      ensures !visible ==>
        suppressNextScanStart == old(suppressNextScanStart) && barcodeScanner.None? && !rotationLocked
        && permissionRequests == old(permissionRequests)
    {
      isScannerVisible := visible;
      if visible {
        if suppressNextScanStart {
          suppressNextScanStart := false;
          return;
        }
        StartScannerIfVisible(cameraPermitted);
      } else {
        StopScanner();
      }
      rotationLocked := visible;
    }

    /** onResume */
    method OnResume(cameraPermitted: bool)
      modifies this
      requires Valid()
      ensures Valid()
      ensures !isScannerVisible ==>
        barcodeScanner == old(barcodeScanner) && cameraBound == old(cameraBound)
        && screenKeptOn == old(screenKeptOn) && permissionRequests == old(permissionRequests)
      ensures isScannerVisible && !cameraPermitted ==>
        barcodeScanner == old(barcodeScanner) && cameraBound == old(cameraBound)
        && screenKeptOn == old(screenKeptOn) && permissionRequests == old(permissionRequests) + 1
      ensures isScannerVisible && cameraPermitted ==>
        barcodeScanner == Some(barcodeScannerOptions) && cameraBound && screenKeptOn
        && permissionRequests == old(permissionRequests)
      ensures isScannerVisible == old(isScannerVisible) && suppressNextScanStart == old(suppressNextScanStart)
      ensures rotationLocked == old(rotationLocked)
    {
      StartScannerIfVisible(cameraPermitted);
    }

    /** onPause */
    method OnPause()
      modifies this
      requires Valid()
      ensures Valid()
      ensures barcodeScanner.None? && !cameraBound && !screenKeptOn
      ensures isScannerVisible == old(isScannerVisible) && suppressNextScanStart == old(suppressNextScanStart)
      ensures rotationLocked == old(rotationLocked) && permissionRequests == old(permissionRequests)
    {
      StopScanner();
    }

    /** onDestroy: stops the scanner and unlocks the rotation (the torch is not modelled). */
    method OnDestroy()
      modifies this
      requires Valid()
      ensures Valid()
      ensures barcodeScanner.None? && !cameraBound && !screenKeptOn && !rotationLocked
      ensures isScannerVisible == old(isScannerVisible) && suppressNextScanStart == old(suppressNextScanStart)
      ensures permissionRequests == old(permissionRequests)
    {
      StopScanner();
      rotationLocked := false;
    }

    /** stopScanner: lets the screen turn off, unbinds the camera and closes any open client. */
    method StopScanner()
      modifies this
      requires Consistent()
      ensures Valid()
      ensures barcodeScanner.None? && !cameraBound && !screenKeptOn
      ensures isScannerVisible == old(isScannerVisible) && suppressNextScanStart == old(suppressNextScanStart)
      ensures rotationLocked == old(rotationLocked) && permissionRequests == old(permissionRequests)
    {
      screenKeptOn := false;
      cameraBound := false;
      if barcodeScanner.Some? {
        barcodeScanner := None;
      }
    }

    /**
     * startScannerIfVisible: nothing while hidden; without the camera
     * permission it asks for it; otherwise it replaces any open client by a
     * new one, binds the camera and keeps the screen on.
     */
    method StartScannerIfVisible(cameraPermitted: bool)
      modifies this
      requires Valid()
      ensures Valid()
      ensures !isScannerVisible ==>
        barcodeScanner == old(barcodeScanner) && cameraBound == old(cameraBound)
        && screenKeptOn == old(screenKeptOn) && permissionRequests == old(permissionRequests)
      ensures isScannerVisible && !cameraPermitted ==>
        barcodeScanner == old(barcodeScanner) && cameraBound == old(cameraBound)
        && screenKeptOn == old(screenKeptOn) && permissionRequests == old(permissionRequests) + 1
      ensures isScannerVisible && cameraPermitted ==>
        barcodeScanner == Some(barcodeScannerOptions) && cameraBound && screenKeptOn
        && permissionRequests == old(permissionRequests)
      ensures isScannerVisible == old(isScannerVisible) && suppressNextScanStart == old(suppressNextScanStart)
      ensures rotationLocked == old(rotationLocked)
    {
      if !isScannerVisible {
        return;
      }
      if !cameraPermitted {
        permissionRequests := permissionRequests + 1;
        return;
      }
      if barcodeScanner.Some? {
        barcodeScanner := None;
      }
      barcodeScanner := Some(barcodeScannerOptions);
      cameraBound := true;
      screenKeptOn := true;
    }

    /**
     * The analyzer callback and onScanSuccess: with a client open, an
     * acceptable result stops the scanner and its raw value goes to the
     * listener; anything else changes nothing.
     */
    method OnAnalyzerResult(barcodes: Option<seq<Option<Barcode>>>, previewWidth: int, previewHeight: int)
      returns (recognized: Option<string>)
      modifies this
      requires Valid()
      ensures Valid()
      ensures recognized == (if old(barcodeScanner).Some? then AcceptedValue(barcodes, strokeWidth, previewWidth, previewHeight) else None)
      ensures recognized.Some? ==> barcodeScanner.None? && !cameraBound && !screenKeptOn
      ensures recognized.None? ==>
        barcodeScanner == old(barcodeScanner) && cameraBound == old(cameraBound) && screenKeptOn == old(screenKeptOn)
      ensures isScannerVisible == old(isScannerVisible) && suppressNextScanStart == old(suppressNextScanStart)
      ensures rotationLocked == old(rotationLocked) && permissionRequests == old(permissionRequests)
    {
      recognized := None;
      if barcodeScanner.Some? {
        recognized := OnScanSuccess(barcodes, previewWidth, previewHeight);
      }
    }

    /** onScanSuccess */
    method OnScanSuccess(barcodes: Option<seq<Option<Barcode>>>, previewWidth: int, previewHeight: int)
      returns (recognized: Option<string>)
      modifies this
      requires Valid()
      ensures Valid()
      ensures recognized == AcceptedValue(barcodes, strokeWidth, previewWidth, previewHeight)
      ensures recognized.Some? ==> barcodeScanner.None? && !cameraBound && !screenKeptOn
      ensures recognized.None? ==>
        barcodeScanner == old(barcodeScanner) && cameraBound == old(cameraBound) && screenKeptOn == old(screenKeptOn)
      ensures isScannerVisible == old(isScannerVisible) && suppressNextScanStart == old(suppressNextScanStart)
      ensures rotationLocked == old(rotationLocked) && permissionRequests == old(permissionRequests)
    {
      if barcodes.None? || |barcodes.value| != 1 || barcodes.value[0].None?
         || barcodes.value[0].value.rawValue.None? || barcodes.value[0].value.rawValue.value == "" {
        return None;
      }
      var cornerPoints := barcodes.value[0].value.cornerPoints;
      if cornerPoints.None? {
        return None;
      }
      var ok := CornersAcceptable(cornerPoints.value, strokeWidth, previewWidth, previewHeight);
      if !ok {
        return None;
      }
      StopScanner();
      return barcodes.value[0].value.rawValue;
    }
  }
}
