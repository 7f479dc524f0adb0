/**
 * The upload gate of the receipt scanner component: a file input that is
 * disabled while a scan is processing, the image-type check of
 * `handleImageUpload`, and the `isProcessing` / `progress` state that the
 * handler raises and that the file reader's callbacks put back. The OCR
 * engine is not modelled: its outcome, recognised text or an error, is a
 * parameter of the callback that receives it.
 */
module ReceiptScanner {
  import opened Wrappers
  import opened Strings
  import opened ReceiptParser

  /** The selected file, as far as the handler looks at it: its declared MIME type. */
  datatype File = File(mimeType: string)

  /** What a change of the file input leads to. */
  datatype UploadOutcome =
    | Ignored     // the input is disabled while processing, so no change event is delivered
    | NoFile      // the event carries no file: logged and returned
    | NotAnImage  // the type does not start with "image/": alerted and returned
    | Started     // processing raised, progress reset, the file is being read

  /** What the end of a scan reports: the draft handed to `onReceiptScanned`, or the failure alert. */
  datatype ScanOutcome = Scanned(draft: Draft) | ScanFailed(error: ScanError)

  /** How a parse result is reported: the draft goes to the callback, an error to the alert. */
  function Report(parsed: Result<Draft, ScanError>): (o: ScanOutcome)
    ensures o.Scanned? <==> parsed.Success?
    ensures o.Scanned? ==> o.draft == parsed.value
    ensures o.ScanFailed? ==> o.error == parsed.error
  {
    match parsed
    case Success(draft) => Scanned(draft)
    case Failure(e) => ScanFailed(e)
  }

  /**
   * The report of a scan whose OCR call gave `ocr` (`None` when it rejected).
   * A draft is delivered exactly when the OCR call succeeded and some line of
   * its text holds a word of the date pattern; a failure is the OCR error when
   * the call rejected and the `new date()` error otherwise.
   */
  function ScanResult(ocr: Option<string>): (o: ScanOutcome)
    ensures o.Scanned? <==> ocr.Some? && HoldsDate(Normalise(ocr.value))
    ensures o.ScanFailed? ==> o.error == if ocr.None? then OcrFailed else DateIsNotAConstructor
    ensures o.Scanned? ==> ocr.Some? && Parse(ocr.value).Success? && o.draft == Parse(ocr.value).value
  {
    match ocr
    case None => ScanFailed(OcrFailed)
    case Some(text) =>
      ParseOutcome(text);
      Report(Parse(text))
  }

  /** The `try` block of `reader.onload`: recognise, parse, and report. */
  method Scan(ocr: Option<string>) returns (o: ScanOutcome)
    ensures o == ScanResult(ocr)
  {
    if ocr.None? {
      o := ScanFailed(OcrFailed);
    } else {
      var parsed := ParseReceiptText(ocr.value);
      o := Report(parsed);
    }
  }

  class Scanner {
    var isProcessing: bool
    var progress: int

    /** `useState(false)` and `useState(0)`. */
    constructor ()
      ensures !isProcessing && progress == 0
    {
      isProcessing, progress := false, 0;
    }

    /** `disabled={isProcessing}` on the file input. */
    predicate InputEnabled()
      reads this
    {
      !isProcessing
    }

    /** The user picks a file on the input: the handler runs only if the input is enabled. */
    method SelectFile(file: Option<File>) returns (o: UploadOutcome)
      modifies this
      ensures old(isProcessing) ==> o == Ignored && isProcessing && progress == old(progress)
      ensures !old(isProcessing) && file.None? ==> o == NoFile
      ensures !old(isProcessing) && file.Some? && !StartsWith(file.value.mimeType, "image/") ==> o == NotAnImage
      ensures !old(isProcessing) && file.Some? && StartsWith(file.value.mimeType, "image/") ==> o == Started
      ensures !old(isProcessing) && o == Started ==> isProcessing && progress == 0
      ensures !old(isProcessing) && o != Started ==> !isProcessing && progress == old(progress)
    {
      if isProcessing {
        o := Ignored;
      } else {
        o := HandleImageUpload(file);
      }
    }

    /**
     * `handleImageUpload`: without a file, or with a file whose type does not
     * start with "image/", nothing changes; otherwise processing is raised and
     * progress reset before the file is read.
     */
    method HandleImageUpload(file: Option<File>) returns (o: UploadOutcome)
      modifies this
      ensures file.None? ==> o == NoFile
      ensures file.Some? && !StartsWith(file.value.mimeType, "image/") ==> o == NotAnImage
      ensures file.Some? && StartsWith(file.value.mimeType, "image/") ==> o == Started
      ensures o == Started ==> isProcessing && progress == 0
      ensures o != Started ==> isProcessing == old(isProcessing) && progress == old(progress)
    {
      if file.None? {
        return NoFile;
      }
      if !StartsWith(file.value.mimeType, "image/") {
        return NotAnImage;
      }
      isProcessing := true;
      progress := 0;
      o := Started;
    }

    /**
     * The OCR logger: while text is being recognised, the rounded percentage
     * becomes the progress; other statuses change nothing.
     */
    method OnOcrLog(status: string, percent: int)
      modifies this
      ensures isProcessing == old(isProcessing)
      ensures progress == if status == "recognizing text" then percent else old(progress)
    {
      if status == "recognizing text" {
        progress := percent;
      }
    }

    /**
     * `reader.onload` once the OCR call has settled: the text is parsed and the
     * draft delivered, or the failure reported; either way processing is
     * lowered and progress reset.
     */
    method OnImageLoaded(ocr: Option<string>) returns (o: ScanOutcome)
      modifies this
      ensures o == ScanResult(ocr)
      ensures !isProcessing && progress == 0
    {
      o := Scan(ocr);
      Settle();
    }

    /** The `finally` block: processing lowered and progress reset. */
    method Settle()
      modifies this
      ensures !isProcessing && progress == 0
    {
      isProcessing, progress := false, 0;
    }

    /** `reader.onerror`: processing is lowered; progress is left as it is. */
    method OnReadError()
      modifies this
      ensures !isProcessing && progress == old(progress)
    {
      isProcessing := false;
    }
  }

  /**
   * One session from a fresh component: a first file, a second attempt made
   * while the first may still be processing, and the OCR outcome. A second
   * selection during processing is ignored, and the component always ends
   * idle with the input enabled again.
   */
  method Session(first: File, second: Option<File>, ocr: Option<string>)
    returns (started: UploadOutcome, retried: UploadOutcome, scan: Option<ScanOutcome>, enabledAfter: bool)
    ensures started == (if StartsWith(first.mimeType, "image/") then Started else NotAnImage)
    ensures started == Started ==> retried == Ignored && scan == Some(ScanResult(ocr))
    ensures started != Started ==> retried != Ignored && scan == None
    ensures started == Started ==> enabledAfter
  {
    var scanner := new Scanner();
    started := scanner.SelectFile(Some(first));
    retried := scanner.SelectFile(second);
    if started == Started {
      var o := scanner.OnImageLoaded(ocr);
      scan := Some(o);
    } else {
      scan := None;
    }
    enabledAfter := scanner.InputEnabled();
  }
}
