/** The invoice record and the partial updates the pipeline writes to it.
    `data` is a JSON column; the model gives it the two shapes the pipeline
    reads and writes: the extraction payload and the per-destination posting
    flags. */
module Records {
  import opened Text

  /** The values of the `status` column. */
  datatype Status = Processing | Completed | Failed | PendingVerification | Posted

  /** One extracted part line; `priceCents` is the parsed price in cents. */
  datatype Part = Part(
    partNumber: string,
    description: string,
    priceCents: nat,
    verified: bool,
    oem: bool)

  datatype ValidationResults = ValidationResults(
    priceVerified: bool,
    partNumbersVerified: bool,
    drpRulesChecked: bool,
    errors: seq<string>)

  /** The payload of a completed extraction. `confidenceQuarters` is the number
      of the four fields found; the confidence itself is that count over 4. */
  datatype ExtractedData = ExtractedData(
    invoiceNumber: string,
    roNumber: string,
    date: string,
    totalAmountCents: nat,
    parts: seq<Part>,
    confidenceQuarters: nat,
    drpCompliant: bool,
    validationResults: ValidationResults)
  {
    function OcrConfidence(): real { confidenceQuarters as real / 4.0 }
  }

  /** The `data` column. `extracted` is None when no extraction payload is
      there; `integrationStatus` is empty when posting never ran. */
  datatype InvoiceData = InvoiceData(
    extracted: Option<ExtractedData>,
    integrationStatus: map<string, bool>)

  datatype Invoice = Invoice(
    id: nat,
    filename: string,
    status: Status,
    data: Option<InvoiceData>)

  /** The partial record handed to the store: the fields that are set, with
      `None` for a key the update does not carry. */
  datatype InvoiceUpdate = InvoiceUpdate(
    id: nat,
    status: Status,
    data: Option<InvoiceData>,
    processingErrors: Option<seq<string>>)
}
