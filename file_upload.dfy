/**
 * The upload panel: checks the media type, extracts the text, rejects text
 * that is too short and writes accepted text to the store, with a busy flag
 * set while extraction runs.
 */
module FileUpload {
  import opened ComplianceStore
  import PdfParser

  const PDF_MEDIA_TYPE := "application/pdf"
  const MIN_TEXT_LENGTH := 50

  datatype FileInfo = FileInfo(name: string, mediaType: string)

  /** What the PDF library yields for a file: its pages, or a thrown error. */
  datatype Extraction = Pages(pages: seq<seq<string>>) | ExtractionFailed

  /** Which notification handleFile ends with. */
  datatype UploadOutcome = InvalidFileType | DocumentTooShort | ProcessingFailed | Uploaded

  class Panel {
    var isProcessing: bool
    const store: Store

    constructor(store: Store)
      ensures !isProcessing && this.store == store
    {
      isProcessing := false;
      this.store := store;
    }

    /** The continue button is enabled iff the store holds document text. */
    predicate ContinueEnabled()
      reads store
    {
      store.documentText != ""
    }

    /** The drop zone is shown while no file name is stored, and accepts files unless processing. */
    predicate FilePickerEnabled()
      reads this, store
    {
      store.fileName == "" && !isProcessing
    }

    /** handleFile up to the awaited extraction: a non-PDF is turned away before the busy flag is set. */
    method BeginHandleFile(file: FileInfo) returns (started: bool)
      modifies this
      ensures started <==> file.mediaType == PDF_MEDIA_TYPE
      ensures started ==> isProcessing && !FilePickerEnabled()
      ensures !started ==> isProcessing == old(isProcessing)
    {
      if file.mediaType != PDF_MEDIA_TYPE {
        return false;
      }
      isProcessing := true;
      started := true;
    }

    /** handleFile after the extraction settles: accept text of at least 50 characters; always clear the busy flag. */
    method FinishHandleFile(file: FileInfo, extraction: Extraction) returns (outcome: UploadOutcome)
      requires store.Valid()
      modifies this, store
      ensures store.Valid() && !isProcessing
      ensures outcome == ProcessingFailed <==> extraction.ExtractionFailed?
      ensures outcome == Uploaded <==>
        extraction.Pages? && |PdfParser.PdfText(extraction.pages)| >= MIN_TEXT_LENGTH
      ensures outcome == DocumentTooShort <==>
        extraction.Pages? && |PdfParser.PdfText(extraction.pages)| < MIN_TEXT_LENGTH
      ensures outcome == Uploaded ==>
        store.Snapshot() == old(store.Snapshot()).(documentText := PdfParser.PdfText(extraction.pages), fileName := file.name)
      ensures outcome == Uploaded ==> ContinueEnabled()
      ensures outcome != Uploaded ==> store.Snapshot() == old(store.Snapshot())
    {
      match extraction {
        case ExtractionFailed =>
          outcome := ProcessingFailed;
        case Pages(pages) =>
          var text := PdfParser.ExtractTextFromPdf(pages);
          if |text| < MIN_TEXT_LENGTH {
            outcome := DocumentTooShort;
          } else {
            store.SetDocumentText(text, file.name);
            outcome := Uploaded;
          }
      }
      isProcessing := false;
    }

    /** The whole of handleFile, with the extraction's result given. */
    method HandleFile(file: FileInfo, extraction: Extraction) returns (outcome: UploadOutcome)
      requires store.Valid()
      modifies this, store
      ensures store.Valid()
      ensures outcome == InvalidFileType <==> file.mediaType != PDF_MEDIA_TYPE
      ensures outcome == InvalidFileType ==> isProcessing == old(isProcessing)
      ensures outcome != InvalidFileType ==> !isProcessing
      ensures outcome == ProcessingFailed <==>
        file.mediaType == PDF_MEDIA_TYPE && extraction.ExtractionFailed?
      ensures outcome == Uploaded <==>
        file.mediaType == PDF_MEDIA_TYPE && extraction.Pages? && |PdfParser.PdfText(extraction.pages)| >= MIN_TEXT_LENGTH
      ensures outcome == DocumentTooShort <==>
        file.mediaType == PDF_MEDIA_TYPE && extraction.Pages? && |PdfParser.PdfText(extraction.pages)| < MIN_TEXT_LENGTH
      ensures outcome == Uploaded ==>
        store.Snapshot() == old(store.Snapshot()).(documentText := PdfParser.PdfText(extraction.pages), fileName := file.name)
      ensures outcome != Uploaded ==> store.Snapshot() == old(store.Snapshot())
    {
      var started := BeginHandleFile(file);
      if !started {
        return InvalidFileType;
      }
      outcome := FinishHandleFile(file, extraction);
    }

    /** clearFile: empties the document text and the file name, which disables continue. */
    method ClearFile()
      requires store.Valid()
      modifies store
      ensures store.Valid()
      ensures store.Snapshot() == old(store.Snapshot()).(documentText := "", fileName := "")
      ensures !ContinueEnabled()
    {
      store.SetDocumentText("", "");
    }
  }
}
