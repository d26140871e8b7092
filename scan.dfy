/**
 * The scan request: decode the uploaded image, recognise its text, select the
 * SR code, append `{SR, timestamp}` to the results table, and reply with the
 * code and the new row count.
 *
 * Decoding, recognition, the clock and the file write are outside the model:
 * whether the image decodes, what the recogniser returns (or that it failed),
 * the timestamp, and whether writing the new table succeeded are parameters.
 */
module Scan {
  import opened Selection
  import opened Ledger

  /** What the text recogniser gave for the preprocessed image. */
  datatype Recognition =
    | Text(text: string)
    | EngineError(message: string)

  /** Whether writing the temporary file and renaming it over the table succeeded. */
  datatype WriteResult =
    | Written
    | WriteError(message: string)

  /** The reply of a scan request. */
  datatype ScanOutcome =
    | Ok(sr: string, rows: nat)            // 200 with {"sr": .., "rows": ..}
    | BadImage                             // 400: the upload is not a decodable image
    | ProcessingError(detail: string)      // 500: any other exception, with its message
  {
    function Status(): nat {
      match this
      case Ok(_, _) => 200
      case BadImage => 400
      case ProcessingError(_) => 500
    }
  }

  method ScanImage(file: ResultsFile, decodable: bool, recognition: Recognition,
                   timestamp: string, write: WriteResult)
    returns (outcome: ScanOutcome)
    requires file.Valid()
    modifies file
    ensures file.Valid()
    ensures !decodable ==> outcome == BadImage && unchanged(file)
    ensures decodable && recognition.EngineError? ==>
              outcome == ProcessingError(recognition.message) && unchanged(file)
    ensures decodable && recognition.Text? && write.WriteError? ==>
              outcome == ProcessingError(write.message) && unchanged(file)
    ensures decodable && recognition.Text? && write.Written? ==>
              var code := SelectCode(recognition.text);
              && outcome == Ok(code, |file.rows|)
              && file.rows == Updated(old(file.Existing()), Record(code, timestamp))
              && file.CountQuery() == Counted(outcome.rows)
    ensures outcome.Ok? <==> decodable && recognition.Text? && write.Written?
  {
    if !decodable {
      return BadImage;
    }
    match recognition
    case EngineError(message) =>
      outcome := ProcessingError(message);
    case Text(text) =>
      var code := SelectCode(text);
      match write
      case WriteError(message) =>
        outcome := ProcessingError(message);
      case Written =>
        var count := file.Append(Record(code, timestamp));
        outcome := Ok(code, count);
  }
}
