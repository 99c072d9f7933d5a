/** Which documents a change of model normalises afresh. */
module ModelSwap {
  // `_model_version_tag` of engine/app/pipeline.py against what engine/app/normalise/router.py and pdf.py
  // read a document with. The code version is part of every key and stays the same here; the ASR backend
  // is the local one.

  import opened Pipeline
  import opened PipelineChains

  datatype Settings = Settings(whisperModel: string, ocrLang: string)

  const PDF := "application/pdf"

  /** `_model_version_tag`. */
  function ModelVersionTag(s: Settings, codeVersion: string): Tagging {
    (mime: string) =>
      if "audio/" <= mime then "faster-whisper/" + s.whisperModel
      else if "image/" <= mime then "paddleocr/" + s.ocrLang
      else if mime == PDF then "pdfplumber+pypdfium2"
      else if "text/" <= mime then "passthrough/" + codeVersion
      else "raw"
  }

  datatype Reader = Whisper(model: string) | Ocr(lang: string) | TextLayer | Passthrough | Unsupported

  /** What `normalise` reads the document with; a scanned PDF has no text layer, and its pages go to OCR. */
  function ReaderOf(s: Settings, mime: string, scanned: bool): Reader {
    if "audio/" <= mime then Whisper(s.whisperModel)
    else if "image/" <= mime then Ocr(s.ocrLang)
    else if mime == PDF then (if scanned then Ocr(s.ocrLang) else TextLayer)
    else if "text/" <= mime then Passthrough
    else Unsupported
  }

  lemma SamePrefix(prefix: string, a: string, b: string)
    requires prefix + a == prefix + b
    ensures a == b
  {
    assert (prefix + a)[|prefix|..] == a && (prefix + b)[|prefix|..] == b;
  }

  lemma PrefixesDiffer(mime: string)
    ensures ("audio/" <= mime ==> !("image/" <= mime) && !("text/" <= mime) && mime != PDF) && ("image/" <= mime ==> !("text/" <= mime) && mime != PDF) &&
      ("text/" <= mime ==> mime != PDF)
  {
    assert PDF[0] == 'a' && PDF[1] == 'p';
    assert "audio/" <= mime ==> mime[0] == 'a' && mime[1] == 'u';
    assert "image/" <= mime ==> mime[0] == 'i';
    assert "text/" <= mime ==> mime[0] == 't';
  }

  /** The tag of recordings changes with the model that transcribes, that of images with the language, that of
      texts with the code, and no other tag changes at all. */
  lemma TagChangesExactlyWhen(s: Settings, s': Settings, codeVersion: string, codeVersion': string, mime: string)
    ensures ModelVersionTag(s, codeVersion)(mime) != ModelVersionTag(s', codeVersion')(mime) <==>
      ("audio/" <= mime && s.whisperModel != s'.whisperModel) || ("image/" <= mime && s.ocrLang != s'.ocrLang) ||
      ("text/" <= mime && codeVersion != codeVersion')
  {
    PrefixesDiffer(mime);
    if ModelVersionTag(s, codeVersion)(mime) == ModelVersionTag(s', codeVersion')(mime) {
      if "audio/" <= mime {
        SamePrefix("faster-whisper/", s.whisperModel, s'.whisperModel);
      } else if "image/" <= mime {
        SamePrefix("paddleocr/", s.ocrLang, s'.ocrLang);
      } else if "text/" <= mime {
        SamePrefix("passthrough/", codeVersion, codeVersion');
      }
    }
  }

  /** What reads the document changes with the transcription model for recordings, and with the language for
      images and for scanned PDFs. */
  lemma ReaderChangesExactlyWhen(s: Settings, s': Settings, mime: string, scanned: bool)
    ensures ReaderOf(s, mime, scanned) != ReaderOf(s', mime, scanned) <==>
      ("audio/" <= mime && s.whisperModel != s'.whisperModel) || (("image/" <= mime || (mime == PDF && scanned)) && s.ocrLang != s'.ocrLang)
  {
    PrefixesDiffer(mime);
  }

  /** A change of settings that changes what reads the document changes its tag, exactly unless it is a PDF:
      the tag of a scanned one does not name the OCR that read it. */
  lemma TagSeesTheReaderExactlyWhen(s: Settings, s': Settings, codeVersion: string, mime: string, scanned: bool)
    requires ReaderOf(s, mime, scanned) != ReaderOf(s', mime, scanned)
    ensures ModelVersionTag(s, codeVersion)(mime) != ModelVersionTag(s', codeVersion)(mime) <==> mime != PDF
  {
    hide ModelVersionTag, ReaderOf;
    PrefixesDiffer(mime);
    TagChangesExactlyWhen(s, s', codeVersion, codeVersion, mime);
    ReaderChangesExactlyWhen(s, s', mime, scanned);
  }

  /** So a document that was normalised under one model, and is to be read by another, is normalised afresh
      exactly unless it is a PDF; a scanned one keeps the text of the old OCR, whatever the new one reads. */
  lemma SwapRenormalisesExactlyWhen(s: Settings, s': Settings, codeVersion: string, db: Db, sha: string, scanned: bool, content: Normalised)
    requires sha in db.docs && IsDone(db, KeyOf(ModelVersionTag(s, codeVersion), db, sha)) && !content.degraded
    requires forall model :: IsDone(db, NormaliseKey(sha, model)) ==> model == ModelVersionTag(s, codeVersion)(db.docs[sha].mime)
    requires ReaderOf(s, db.docs[sha].mime, scanned) != ReaderOf(s', db.docs[sha].mime, scanned)
    ensures var tag' := ModelVersionTag(s', codeVersion);
      var db', row := NormaliseTx(tag', db, sha, content), Content(sha, db.docs[sha].caseId, content.text);
      if db.docs[sha].mime == PDF then db' == db else !IsDone(db, KeyOf(tag', db, sha)) && Holds(tag', db', row)
  {
    hide ModelVersionTag, ReaderOf, Save;
    TagSeesTheReaderExactlyWhen(s, s', codeVersion, db.docs[sha].mime, scanned);
    SaveHolds(db.contents, Content(sha, db.docs[sha].caseId, content.text));
  }
}
