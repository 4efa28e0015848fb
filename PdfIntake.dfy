/** The document intake pipeline as an explicit state machine: type check, digital
    text extraction (failure recovered), OCR fallback (only for empty digital
    text; failure fatal), field extraction by the completion service (failure
    fatal), done. The three engines are oracles: their outcomes are inputs. */
module PdfIntake {
  import opened Outcomes
  import opened JsText

  const PdfMediaType: string := "application/pdf"
  const NotPdfMessage: string := "Only PDF files are allowed"

  /** What a call into an external engine gave back: its text, or an exception. */
  datatype Attempt = Succeeded(text: string) | Threw

  /** The engines' behaviour on the uploaded file: pdf-parse's text layer, the
      Tesseract recognition with the `eng` profile, and the completion service as a
      function of the document text put into the fixed prompt template. */
  datatype Engines = Engines(pdfParse: Attempt, ocr: Attempt, completion: string -> Attempt)

  /** A stage the pipeline ran; field extraction records the text it was given. */
  datatype Stage = TypeCheck | DigitalExtract | OpticalFallback | FieldExtraction(docText: string)

  datatype Phase =
    | AtTypeCheck
    | AtDigitalExtract
    | AtOpticalFallback
    | AtFieldExtraction(docText: string)
    | Done(response: string)
    | Failed(error: Failure)
  {
    predicate Final() { Done? || Failed? }
  }

  function Rank(p: Phase): nat {
    match p
    case AtTypeCheck => 4
    case AtDigitalExtract => 3
    case AtOpticalFallback => 2
    case AtFieldExtraction(_) => 1
    case _ => 0
  }

  /** The digital text once trimmed, or the empty text when pdf-parse threw. */
  function DigitalText(parse: Attempt): string {
    if parse.Succeeded? then Trim(parse.text) else ""
  }

  /** One transition of the pipeline. */
  function Step(p: Phase, mimetype: string, e: Engines): (q: Phase)
    requires !p.Final()
    ensures Rank(q) < Rank(p)
  {
    match p
    case AtTypeCheck =>
      if mimetype == PdfMediaType then AtDigitalExtract else Failed(BadRequest(NotPdfMessage))
    case AtDigitalExtract =>
      if DigitalText(e.pdfParse) != "" then AtFieldExtraction(DigitalText(e.pdfParse))
      else AtOpticalFallback
    case AtOpticalFallback =>
      if e.ocr.Succeeded? then AtFieldExtraction(e.ocr.text) else Failed(UpstreamError)
    case AtFieldExtraction(text) =>
      var c := e.completion(text);
      if c.Succeeded? then Done(c.text) else Failed(UpstreamError)
  }

  function StageOf(p: Phase): Stage
    requires !p.Final()
  {
    match p
    case AtTypeCheck => TypeCheck
    case AtDigitalExtract => DigitalExtract
    case AtOpticalFallback => OpticalFallback
    case AtFieldExtraction(text) => FieldExtraction(text)
  }

  /** Runs the machine to a final phase, listing the stages it passed through. */
  function Run(p: Phase, mimetype: string, e: Engines): (out: (Phase, seq<Stage>))
    ensures out.0.Final()
    ensures |out.1| <= Rank(p)
    ensures p.Final() <==> out.1 == []
    ensures !p.Final() ==> out.1[0] == StageOf(p)
    decreases Rank(p)
  {
    if p.Final() then (p, [])
    else
      var (q, trace) := Run(Step(p, mimetype, e), mimetype, e);
      (q, [StageOf(p)] + trace)
  }

  function Outcome(p: Phase): Result<string, Failure>
    requires p.Final()
  {
    if p.Done? then Ok(p.response) else Err(p.error)
  }

  /** The pipeline's answer for an upload: the result and the stages that ran. */
  function Intake(mimetype: string, e: Engines): (out: (Result<string, Failure>, seq<Stage>))
    ensures 1 <= |out.1| <= 4 && out.1[0] == TypeCheck
  {
    var (final, trace) := Run(AtTypeCheck, mimetype, e);
    (Outcome(final), trace)
  }

  /** The final phase the completion's outcome leads to. */
  function Answered(c: Attempt): Phase {
    if c.Succeeded? then Done(c.text) else Failed(UpstreamError)
  }

  lemma RunStep(p: Phase, mimetype: string, e: Engines)
    requires !p.Final()
    ensures var q := Step(p, mimetype, e);
      Run(p, mimetype, e) == (Run(q, mimetype, e).0, [StageOf(p)] + Run(q, mimetype, e).1)
  {
  }

  lemma RunFromFieldExtraction(text: string, mimetype: string, e: Engines)
    ensures Run(AtFieldExtraction(text), mimetype, e) == (Answered(e.completion(text)), [FieldExtraction(text)])
  {
    var p := AtFieldExtraction(text);
    RunStep(p, mimetype, e);
    var q := Step(p, mimetype, e);
    assert Run(q, mimetype, e) == (q, []);
    assert [StageOf(p)] + [] == [FieldExtraction(text)];
  }

  lemma RunFromOpticalFallback(mimetype: string, e: Engines)
    ensures e.ocr.Threw? ==>
      Run(AtOpticalFallback, mimetype, e) == (Failed(UpstreamError), [OpticalFallback])
    ensures e.ocr.Succeeded? ==>
      Run(AtOpticalFallback, mimetype, e) ==
        (Answered(e.completion(e.ocr.text)), [OpticalFallback, FieldExtraction(e.ocr.text)])
  {
    RunStep(AtOpticalFallback, mimetype, e);
    var q := Step(AtOpticalFallback, mimetype, e);
    if e.ocr.Succeeded? {
      assert q == AtFieldExtraction(e.ocr.text);
      RunFromFieldExtraction(e.ocr.text, mimetype, e);
      assert [OpticalFallback] + [FieldExtraction(e.ocr.text)] == [OpticalFallback, FieldExtraction(e.ocr.text)];
    } else {
      assert Run(q, mimetype, e) == (q, []);
      assert [OpticalFallback] + [] == [OpticalFallback];
    }
  }

  lemma RunFromDigitalExtract(mimetype: string, e: Engines)
    ensures var t := DigitalText(e.pdfParse);
      (t != "" ==>
        Run(AtDigitalExtract, mimetype, e) == (Answered(e.completion(t)), [DigitalExtract, FieldExtraction(t)]))
    ensures var o := Run(AtOpticalFallback, mimetype, e);
      (DigitalText(e.pdfParse) == "" ==> Run(AtDigitalExtract, mimetype, e) == (o.0, [DigitalExtract] + o.1))
  {
    RunStep(AtDigitalExtract, mimetype, e);
    var t := DigitalText(e.pdfParse);
    if t != "" {
      assert Step(AtDigitalExtract, mimetype, e) == AtFieldExtraction(t);
      RunFromFieldExtraction(t, mimetype, e);
      assert [DigitalExtract] + [FieldExtraction(t)] == [DigitalExtract, FieldExtraction(t)];
    }
  }

  lemma IntakeOfPdf(e: Engines)
    ensures Intake(PdfMediaType, e) ==
      (Outcome(Run(AtDigitalExtract, PdfMediaType, e).0), [TypeCheck] + Run(AtDigitalExtract, PdfMediaType, e).1)
  {
    RunStep(AtTypeCheck, PdfMediaType, e);
  }

  /** A file not declared as PDF fails with BadRequest before any extraction. */
  lemma NonPdfRejected(mimetype: string, e: Engines)
    requires mimetype != PdfMediaType
    ensures Intake(mimetype, e) == (Err(BadRequest(NotPdfMessage)), [TypeCheck])
  {
    RunStep(AtTypeCheck, mimetype, e);
    var q := Step(AtTypeCheck, mimetype, e);
    assert Run(q, mimetype, e) == (q, []);
    assert [TypeCheck] + [] == [TypeCheck];
  }

  /** OCR runs exactly when pdf-parse threw or gave whitespace-only text. */
  lemma OcrIffDigitalTextBlank(e: Engines)
    ensures OpticalFallback in Intake(PdfMediaType, e).1
        <==> (e.pdfParse.Threw? || AllWs(e.pdfParse.text))
  {
    if e.pdfParse.Succeeded? {
      TrimEmptyIff(e.pdfParse.text);
    }
    var trace := Intake(PdfMediaType, e).1;
    if e.pdfParse.Succeeded? && Trim(e.pdfParse.text) != "" {
      DigitalTextGoesToCompletion(e);
      assert trace == [TypeCheck, DigitalExtract, FieldExtraction(Trim(e.pdfParse.text))];
      assert OpticalFallback !in trace;
    } else if e.ocr.Succeeded? {
      OcrTextGoesToCompletion(e);
      assert trace[2] == OpticalFallback;
    } else {
      OcrFailureIsFatal(e);
      assert trace[2] == OpticalFallback;
    }
  }

  /** With non-blank digital text, the completion gets that text trimmed, and the
      pipeline answers with the completion's response or fails with its error. */
  lemma DigitalTextGoesToCompletion(e: Engines)
    requires e.pdfParse.Succeeded? && Trim(e.pdfParse.text) != ""
    ensures var t := Trim(e.pdfParse.text);
      Intake(PdfMediaType, e) ==
        (if e.completion(t).Succeeded? then Ok(e.completion(t).text) else Err(UpstreamError),
         [TypeCheck, DigitalExtract, FieldExtraction(t)])
  {
    IntakeOfPdf(e);
    RunFromDigitalExtract(PdfMediaType, e);
    var t := Trim(e.pdfParse.text);
    assert [TypeCheck] + [DigitalExtract, FieldExtraction(t)] == [TypeCheck, DigitalExtract, FieldExtraction(t)];
  }

  /** On the OCR path the completion gets the OCR text as recognised, untrimmed. */
  lemma OcrTextGoesToCompletion(e: Engines)
    requires e.pdfParse.Threw? || Trim(e.pdfParse.text) == ""
    requires e.ocr.Succeeded?
    ensures var t := e.ocr.text;
      Intake(PdfMediaType, e) ==
        (if e.completion(t).Succeeded? then Ok(e.completion(t).text) else Err(UpstreamError),
         [TypeCheck, DigitalExtract, OpticalFallback, FieldExtraction(t)])
  {
    IntakeOfPdf(e);
    RunFromDigitalExtract(PdfMediaType, e);
    RunFromOpticalFallback(PdfMediaType, e);
    var t := e.ocr.text;
    assert [TypeCheck] + ([DigitalExtract] + [OpticalFallback, FieldExtraction(t)])
        == [TypeCheck, DigitalExtract, OpticalFallback, FieldExtraction(t)];
  }

  /** An OCR failure ends the pipeline: no completion call, no retry. */
  lemma OcrFailureIsFatal(e: Engines)
    requires e.pdfParse.Threw? || Trim(e.pdfParse.text) == ""
    requires e.ocr.Threw?
    ensures Intake(PdfMediaType, e) == (Err(UpstreamError), [TypeCheck, DigitalExtract, OpticalFallback])
  {
    IntakeOfPdf(e);
    RunFromDigitalExtract(PdfMediaType, e);
    RunFromOpticalFallback(PdfMediaType, e);
    assert [TypeCheck] + ([DigitalExtract] + [OpticalFallback]) == [TypeCheck, DigitalExtract, OpticalFallback];
  }

  /** A successful upload returns exactly what the completion service answered for
      the text of the last stage; every failure is BadRequest or an upstream error. */
  lemma SuccessIsCompletionResponse(mimetype: string, e: Engines)
    ensures var (r, trace) := Intake(mimetype, e);
      && (r.Ok? ==> |trace| >= 3 && trace[|trace| - 1].FieldExtraction?
                    && e.completion(trace[|trace| - 1].docText) == Succeeded(r.value))
      && (r.Err? ==> r.error == BadRequest(NotPdfMessage) || r.error == UpstreamError)
  {
    if mimetype != PdfMediaType {
      NonPdfRejected(mimetype, e);
    } else {
      IntakeOfPdf(e);
      RunFromDigitalExtract(PdfMediaType, e);
      RunFromOpticalFallback(PdfMediaType, e);
    }
  }
}
