/** `processOCR` and `initializeWorker`: the sequenced calls around the pure
    extraction, the store writes they issue, and the module-level `worker` slot
    that is created on demand, reused while set, and cleared after every run.

    The OCR engine, the file-system check and the store are outside the model:
    each awaited call is an input that says whether the call returned or threw,
    and the recognised text is an input too. A worker is named by the number
    of workers created before it, so newly created workers are distinct. */
module OcrProcessing {
  import opened Text
  import opened Records
  import opened Ocr

  /** How one awaited call ended: it returned, or it threw an `Error` with a message. */
  datatype Step = Ok | Throws(message: string)

  /** The update a successful run writes: status `completed` and the extraction
      payload as the whole `data` column. */
  function CompletedUpdate(id: nat, text: string): InvoiceUpdate {
    InvoiceUpdate(id, Completed, Some(InvoiceData(Some(ExtractData(text)), map[])), None)
  }

  /** The update the `catch` writes: status `failed` and the one message. */
  function FailedUpdate(id: nat, message: string): InvoiceUpdate {
    InvoiceUpdate(id, Failed, None, Some([message]))
  }

  /** The message `initializeWorker` throws with, if it throws: only a call made
      while the slot is empty can fail, at the first library call that throws. */
  function InitError(slot: Option<nat>, create: Step, load: Step, init: Step): Option<string> {
    if slot.Some? then None
    else if create.Throws? then Some(create.message)
    else if load.Throws? then Some(load.message)
    else if init.Throws? then Some(init.message)
    else None
  }

  /** The slot after `initializeWorker`: kept when set, otherwise the new worker
      `next` once `createWorker` has returned, even if loading it then fails. */
  function SlotAfterInit(slot: Option<nat>, create: Step, next: nat): Option<nat> {
    if slot.Some? then slot else if create.Ok? then Some(next) else None
  }

  /** The message of the first step of `processOCR` that threw, the completing
      store write included; None when every step returned. */
  function FirstError(access: Step, initError: Option<string>, recognition: Result<string, string>, store: Step): Option<string> {
    if access.Throws? then Some(access.message)
    else if initError.Some? then initError
    else if recognition.Failure? then Some(recognition.error)
    else if store.Throws? then Some(store.message)
    else None
  }

  /** The store writes of one `processOCR` run, in the order they are issued.
      The `completed` write is issued as soon as the text is recognised; when
      it throws, the `catch` issues the `failed` write after it. */
  function Writes(id: nat, access: Step, initError: Option<string>, recognition: Result<string, string>, store: Step): seq<InvoiceUpdate> {
    if access.Throws? then [FailedUpdate(id, access.message)]
    else if initError.Some? then [FailedUpdate(id, initError.value)]
    else if recognition.Failure? then [FailedUpdate(id, recognition.error)]
    else if store.Throws? then [CompletedUpdate(id, recognition.value), FailedUpdate(id, store.message)]
    else [CompletedUpdate(id, recognition.value)]
  }

  /** A run issues one or two writes, all for the invoice, and the last one
      decides the record: `completed` with the full payload and no error list
      exactly when no step threw, and otherwise `failed` with no payload and
      exactly one message, the one of the first step that threw. */
  lemma WritesOutcome(id: nat, access: Step, initError: Option<string>, recognition: Result<string, string>, store: Step)
    ensures var ws := Writes(id, access, initError, recognition, store);
      && 1 <= |ws| <= 2
      && (forall k :: 0 <= k < |ws| ==> ws[k].id == id)
      && (ws[|ws| - 1].status == Completed <==> FirstError(access, initError, recognition, store).None?)
      && (ws[|ws| - 1].status == Completed ==>
            |ws| == 1 && ws[0].processingErrors.None?
            && ws[0].data == Some(InvoiceData(Some(ExtractData(recognition.value)), map[])))
      && (ws[|ws| - 1].status != Completed ==>
            ws[|ws| - 1].status == Failed && ws[|ws| - 1].data.None?
            && ws[|ws| - 1].processingErrors == Some([FirstError(access, initError, recognition, store).value]))
  {
    var ws := Writes(id, access, initError, recognition, store);
    if FirstError(access, initError, recognition, store).None? {
      assert ws == [CompletedUpdate(id, recognition.value)];
    } else if access.Ok? && initError.None? && recognition.Success? {
      assert ws == [CompletedUpdate(id, recognition.value), FailedUpdate(id, store.message)];
    } else {
      assert ws == [FailedUpdate(id, FirstError(access, initError, recognition, store).value)];
    }
  }

  /** A second write happens only after a recognised text, and it is the
      `failed` write that follows a `completed` write the store refused. */
  lemma WritesTwice(id: nat, access: Step, initError: Option<string>, recognition: Result<string, string>, store: Step)
    ensures var ws := Writes(id, access, initError, recognition, store);
      |ws| == 2 <==> access.Ok? && initError.None? && recognition.Success? && store.Throws?
    ensures var ws := Writes(id, access, initError, recognition, store);
      |ws| == 2 ==> ws[0] == CompletedUpdate(id, recognition.value) && ws[1].status == Failed
  {
  }

  /** A `completed` write always carries a payload that passes its own checks,
      with a confidence that is a whole number of quarters. */
  lemma CompletedPayload(id: nat, text: string)
    ensures var u := CompletedUpdate(id, text);
      && u.data.Some? && u.data.value.extracted.Some?
      && u.data.value.extracted.value.drpCompliant
      && u.data.value.extracted.value.validationResults == ValidationResults(true, true, true, [])
      && u.data.value.extracted.value.OcrConfidence() in {0.0, 0.25, 0.5, 0.75, 1.0}
  {
    ExtractDataChecks(text);
    ConfidenceRange(text);
  }

  /** A set slot never makes `initializeWorker` throw, whatever the library would do. */
  lemma {:induction false} SetSlotIsReused(h: nat, create: Step, load: Step, init: Step, next: nat)
    ensures InitError(Some(h), create, load, init).None?
    ensures SlotAfterInit(Some(h), create, next) == Some(h)
  {
  }

  /** The module state of `ocr.ts`: the `worker` slot. */
  class OcrService {
    /** The live worker, None for `null`. */
    var worker: Option<nat>
    /** How many workers were created so far; the next one is named by it. */
    var created: nat

    /** The slot names a worker that was created. */
    ghost predicate Valid()
      reads this
    {
      worker.Some? ==> worker.value < created
    }

    constructor()
      ensures Valid() && worker == None && created == 0
    {
      worker := None;
      created := 0;
    }

    /** `initializeWorker()`: returns the set worker unchanged, or creates,
        loads and initialises a new one; the slot is assigned as soon as
        `createWorker` returns, before the two calls that can still throw. */
    method InitializeWorker(create: Step, load: Step, init: Step) returns (r: Result<nat, string>)
      requires Valid()
      modifies this
      ensures Valid()
      ensures r.Failure? <==> InitError(old(worker), create, load, init).Some?
      ensures r.Failure? ==> r.error == InitError(old(worker), create, load, init).value
      ensures r.Success? ==> Some(r.value) == worker
      ensures r.Success? && old(worker).Some? ==> r.value < old(created)
      ensures r.Success? && old(worker).None? ==> r.value == old(created)
      ensures worker == SlotAfterInit(old(worker), create, old(created))
      ensures created == if old(worker).None? && create.Ok? then old(created) + 1 else old(created)
    {
      if worker.Some? {
        return Success(worker.value);
      }
      if create.Throws? {
        return Failure(create.message);
      }
      worker := Some(created);
      created := created + 1;
      if load.Throws? {
        return Failure(load.message);
      }
      if init.Throws? {
        return Failure(init.message);
      }
      r := Success(worker.value);
    }

    /** `processOCR(invoice, filePath)`: checks the file, gets a worker,
        recognises the text, and writes the outcome; then, in `finally`,
        terminates the worker and clears the slot. When `terminate` throws
        the error is swallowed and the slot keeps the worker. */
    method ProcessOCR(id: nat, access: Step, create: Step, load: Step, init: Step,
                      recognition: Result<string, string>, store: Step, terminate: Step)
      returns (writes: seq<InvoiceUpdate>)
      requires Valid()
      modifies this
      ensures Valid()
      ensures writes == Writes(id, access, InitError(old(worker), create, load, init), recognition, store)
      ensures terminate.Ok? ==> worker == None
      ensures terminate.Throws? ==>
        worker == if access.Throws? then old(worker) else SlotAfterInit(old(worker), create, old(created))
      ensures created == if access.Ok? && old(worker).None? && create.Ok? then old(created) + 1 else old(created)
    {
      var initError: Option<string> := None;
      if access.Ok? {
        var w := InitializeWorker(create, load, init);
        if w.Failure? {
          initError := Some(w.error);
        }
      }
      writes := IssueWrites(id, access, initError, recognition, store);
      if worker.Some? && terminate.Ok? {
        worker := None;
      }
    }
  }

  /** The `try` and `catch` of `processOCR` once the worker is known: the
      `completed` write after a recognised text, and the `failed` write with
      the message of the first step that threw. */
  method IssueWrites(id: nat, access: Step, initError: Option<string>, recognition: Result<string, string>, store: Step)
    returns (writes: seq<InvoiceUpdate>)
    ensures writes == Writes(id, access, initError, recognition, store)
  {
    var error: Option<string> := None;
    writes := [];
    if access.Throws? {
      error := Some(access.message);
    } else if initError.Some? {
      error := initError;
    } else if recognition.Failure? {
      error := Some(recognition.error);
    } else {
      writes := [CompletedUpdate(id, recognition.value)];
      if store.Throws? {
        error := Some(store.message);
      }
    }
    assert error == FirstError(access, initError, recognition, store);
    if error.Some? {
      writes := writes + [FailedUpdate(id, error.value)];
    }
  }
}
