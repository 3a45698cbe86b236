/** Posting an invoice to the accounting systems: the two posters, which turn
    the outcome of their call into a `PostingResult`, and the aggregation of
    both results into the one update `handleSimultaneousPosting` writes.

    The posters' only inputs from outside are the clock and whatever their
    `try` body throws; both are parameters here. The two posters run
    concurrently, but neither sees the other's result, so the aggregation is a
    function of the two results. */
module Integrations {
  import opened Text
  import opened Records

  datatype PostingResult = PostingResult(success: bool, message: string, referenceId: Option<string>)

  /** What a poster's `try` body threw: an `Error` with its message, or any other value. */
  datatype Thrown = ErrorValue(message: string) | OtherValue

  /** How a poster's `try` body ended: it returned at time `now` (milliseconds
      since the epoch), or it threw. */
  datatype PosterRun = Returned(now: nat) | Threw(thrown: Thrown)

  const QuickBooksPosted := "Successfully posted to QuickBooks"
  const QuickBooksFailed := "Failed to post to QuickBooks"
  const CccPosted := "Successfully posted to CCC ONE"
  const CccFailed := "Failed to post to CCC ONE"

  /** The message of a caught value: the error's own message, else the poster's default. */
  function CaughtMessage(thrown: Thrown, fallback: string): string {
    match thrown
    case ErrorValue(m) => m
    case OtherValue => fallback
  }

  /** The result a poster builds: a success with a reference id stamped with
      the clock, or a failure with the caught message and no reference id. */
  function Posting(run: PosterRun, prefix: string, posted: string, failed: string): (r: PostingResult)
    ensures r.success <==> run.Returned?
    ensures r.success ==> r.message == posted && r.referenceId == Some(prefix + NatToString(run.now))
    ensures !r.success ==> r.referenceId.None? && r.message == CaughtMessage(run.thrown, failed)
  {
    match run
    case Returned(now) => PostingResult(true, posted, Some(prefix + NatToString(now)))
    case Threw(thrown) => PostingResult(false, CaughtMessage(thrown, failed), None)
  }

  /** `postToQuickBooks(invoice)`. */
  function PostToQuickBooks(run: PosterRun): (r: PostingResult)
    ensures r.success <==> run.Returned?
    ensures r.success ==> r.message == QuickBooksPosted && r.referenceId.Some? && |r.referenceId.value| > 3 && r.referenceId.value[..3] == "QB-"
    ensures !r.success ==> r.referenceId.None? && r.message == CaughtMessage(run.thrown, QuickBooksFailed)
  {
    Posting(run, "QB-", QuickBooksPosted, QuickBooksFailed)
  }

  /** `postToCCC(invoice)`. */
  function PostToCCC(run: PosterRun): (r: PostingResult)
    ensures r.success <==> run.Returned?
    ensures r.success ==> r.message == CccPosted && r.referenceId.Some? && |r.referenceId.value| > 4 && r.referenceId.value[..4] == "CCC-"
    ensures !r.success ==> r.referenceId.None? && r.message == CaughtMessage(run.thrown, CccFailed)
  {
    Posting(run, "CCC-", CccPosted, CccFailed)
  }

  /** A reference id is its prefix followed by the clock reading in decimal, so
      the reading can be read back from it. */
  lemma {:induction false} ReferenceIdRoundTrip(run: PosterRun, prefix: string, posted: string, failed: string)
    requires run.Returned?
    ensures var id := Posting(run, prefix, posted, failed).referenceId.value;
      && |id| > |prefix| && id[..|prefix|] == prefix
      && AllDigits(id[|prefix|..]) && DigitsValue(id[|prefix|..]) == run.now
  {
    var id := prefix + NatToString(run.now);
    assert id[|prefix|..] == NatToString(run.now);
    NatToStringRoundTrip(run.now);
  }

  /** The flags `integrationStatus` holds after posting: the prior ones, with
      the two destinations set. */
  function MergedStatus(prior: map<string, bool>, quickBooks: bool, ccc: bool): map<string, bool> {
    prior["quickbooks" := quickBooks]["cccOne" := ccc]
  }

  /** The messages of the posters that failed, QuickBooks first. */
  function PostingErrors(quickBooks: PostingResult, ccc: PostingResult): seq<string> {
    (if !quickBooks.success then [quickBooks.message] else []) + (if !ccc.success then [ccc.message] else [])
  }

  /** `handleSimultaneousPosting(invoice)`: the update it hands to the store. */
  function HandleSimultaneousPosting(invoice: Invoice, quickBooks: PostingResult, ccc: PostingResult): InvoiceUpdate {
    var prior := if invoice.data.Some? then invoice.data.value else InvoiceData(None, map[]);
    InvoiceUpdate(
      invoice.id,
      if quickBooks.success && ccc.success then Posted else Failed,
      Some(InvoiceData(prior.extracted, MergedStatus(prior.integrationStatus, quickBooks.success, ccc.success))),
      Some(PostingErrors(quickBooks, ccc)))
  }

  /** The invoice is `posted` exactly when both posters succeeded, and `failed` otherwise. */
  lemma {:induction false} PostedIffBoth(invoice: Invoice, quickBooks: PostingResult, ccc: PostingResult)
    ensures var u := HandleSimultaneousPosting(invoice, quickBooks, ccc);
      && u.id == invoice.id
      && (u.status == Posted <==> quickBooks.success && ccc.success)
      && (u.status != Posted ==> u.status == Failed)
  {
  }

  /** The error list holds one message per failed poster, QuickBooks first; it
      is empty exactly when both succeeded, and it is the whole new list. */
  lemma {:induction false} ErrorsOfFailedPosters(invoice: Invoice, quickBooks: PostingResult, ccc: PostingResult)
    ensures var u := HandleSimultaneousPosting(invoice, quickBooks, ccc);
      && u.processingErrors.Some?
      && var errs := u.processingErrors.value;
      && |errs| == (if quickBooks.success then 0 else 1) + (if ccc.success then 0 else 1)
      && (errs == [] <==> quickBooks.success && ccc.success)
      && (!quickBooks.success ==> errs[0] == quickBooks.message)
      && (!ccc.success ==> errs[|errs| - 1] == ccc.message)
      && (u.status == Posted <==> errs == [])
  {
  }

  /** The two destination flags are the posters' success flags, and every other
      prior flag is kept as it was; no other key appears. */
  lemma {:induction false} IntegrationStatusMerged(invoice: Invoice, quickBooks: PostingResult, ccc: PostingResult)
    ensures var u := HandleSimultaneousPosting(invoice, quickBooks, ccc);
      && u.data.Some?
      && var m := u.data.value.integrationStatus;
      && var prior := if invoice.data.Some? then invoice.data.value.integrationStatus else map[];
      && "quickbooks" in m && m["quickbooks"] == quickBooks.success
      && "cccOne" in m && m["cccOne"] == ccc.success
      && m.Keys == prior.Keys + {"quickbooks", "cccOne"}
      && (forall k :: k in prior && k != "quickbooks" && k != "cccOne" ==> m[k] == prior[k])
  {
  }

  /** The extraction payload of the invoice is carried into the new `data` unchanged. */
  lemma {:induction false} DataCarriedOver(invoice: Invoice, quickBooks: PostingResult, ccc: PostingResult)
    ensures var u := HandleSimultaneousPosting(invoice, quickBooks, ccc);
      && u.data.Some?
      && u.data.value.extracted == (if invoice.data.Some? then invoice.data.value.extracted else None)
  {
  }

  /** No status is required of the invoice: whatever its status and file name,
      the same update is written. A second posting of the same results writes
      the same flags again. */
  lemma {:induction false} NoStatusGuard(invoice: Invoice, status: Status, filename: string, quickBooks: PostingResult, ccc: PostingResult)
    ensures HandleSimultaneousPosting(invoice.(status := status, filename := filename), quickBooks, ccc)
         == HandleSimultaneousPosting(invoice, quickBooks, ccc)
    ensures var u := HandleSimultaneousPosting(invoice, quickBooks, ccc);
      HandleSimultaneousPosting(invoice.(data := u.data), quickBooks, ccc).data == u.data
  {
    var u := HandleSimultaneousPosting(invoice, quickBooks, ccc);
    var prior := if invoice.data.Some? then invoice.data.value.integrationStatus else map[];
    var m := MergedStatus(prior, quickBooks.success, ccc.success);
    assert MergedStatus(m, quickBooks.success, ccc.success) == m;
  }

  /** Posting through both posters: the invoice is posted exactly when neither
      call threw, and then no message is recorded. */
  lemma {:induction false} PostBoth(invoice: Invoice, quickBooksRun: PosterRun, cccRun: PosterRun)
    ensures var u := HandleSimultaneousPosting(invoice, PostToQuickBooks(quickBooksRun), PostToCCC(cccRun));
      && (u.status == Posted <==> quickBooksRun.Returned? && cccRun.Returned?)
      && (u.status == Posted ==> u.processingErrors == Some([]))
      && (quickBooksRun.Threw? && cccRun.Threw? ==>
            u.processingErrors == Some([CaughtMessage(quickBooksRun.thrown, QuickBooksFailed), CaughtMessage(cccRun.thrown, CccFailed)]))
  {
    var qb := PostToQuickBooks(quickBooksRun);
    var ccc := PostToCCC(cccRun);
    PostedIffBoth(invoice, qb, ccc);
    assert HandleSimultaneousPosting(invoice, qb, ccc).processingErrors == Some(PostingErrors(qb, ccc));
    var u := HandleSimultaneousPosting(invoice, qb, ccc);
    if qb.success && ccc.success {
      assert PostingErrors(qb, ccc) == [];
      assert u.processingErrors == Some([]);
    }
    if !qb.success && !ccc.success {
      assert PostingErrors(qb, ccc) == [qb.message, ccc.message];
      assert qb.message == CaughtMessage(quickBooksRun.thrown, QuickBooksFailed);
    }
  }
}
