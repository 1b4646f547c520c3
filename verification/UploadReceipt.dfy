/**
 * When an upload is reported as saved (apps/extension/shared/api-client.ts and upload-response.ts).
 */
module UploadReceipt {
  import opened Js

  datatype UploadResult = UploadResult(assetId: string, blobUrl: string, thumbnailUrl: string, isDuplicate: bool)

  /** The body as `response.json()` gives it; `Unreadable` when that rejects, with the abort signal's state. */
  datatype Body = Parsed(value: JsValue) | Unreadable(aborted: bool)

  datatype Failure =
    | NotConfirmed        // success is not true or there is no asset
    | IncompleteReceipt   // the asset or the duplicate flag is unusable
    | NoReceipt           // no usable body
    | Interrupted         // the read was aborted
    | HttpError(status: int)   // what parseErrorResponse makes of the status and body

  datatype Outcome = Saved(result: UploadResult) | NotSaved(why: Failure)

  predicate Ok(status: int) { 200 <= status <= 299 }

  function ToUploadResult(response: JsValue): Outcome {
    if Field(response, "success") != Bool(true) || !Truthy(Field(response, "asset")) then NotSaved(NotConfirmed)
    else
      var asset := Field(response, "asset");
      var id, blobUrl, duplicate := Field(asset, "id"), Field(asset, "blobUrl"), Field(response, "isDuplicate");
      if !id.Str? || id.s == "" || !blobUrl.Str? || blobUrl.s == "" || (!duplicate.Undefined? && !duplicate.Bool?)
      then NotSaved(IncompleteReceipt)
      else Saved(UploadResult(id.s, blobUrl.s, blobUrl.s, duplicate == Bool(true)))
  }

  function Receive(status: int, body: Body): Outcome {
    match body
    case Unreadable(aborted) =>
      if aborted then NotSaved(Interrupted)
      else if !Ok(status) then NotSaved(HttpError(status))
      else NotSaved(NoReceipt)
    case Parsed(data) =>
      if status == 409 && Field(data, "success") == Bool(true) && Truthy(Field(data, "asset"))
         && Field(data, "isDuplicate") == Bool(true)
      then ToUploadResult(data)
      else if !Ok(status) then NotSaved(HttpError(status))
      else if !Truthy(data) then NotSaved(NoReceipt)
      else ToUploadResult(data)
  }

  /** A receipt: success, an asset with an id and a blob address, and a duplicate flag that is a boolean if present. */
  ghost predicate IsReceipt(data: JsValue) {
    var asset, duplicate := Field(data, "asset"), Field(data, "isDuplicate");
    && Field(data, "success") == Bool(true)
    && (exists id :: id != "" && Field(asset, "id") == Str(id))
    && (exists url :: url != "" && Field(asset, "blobUrl") == Str(url))
    && (duplicate.Undefined? || duplicate.Bool?)
  }

  /**
   * An upload is reported as saved exactly when the body is a receipt and the status is 2xx, or 409 for a
   * duplicate; the report names the receipt's asset and is marked as a duplicate only if the receipt is.
   */
  lemma SavedExactly(status: int, body: Body)
    ensures Receive(status, body).Saved? <==>
      && body.Parsed? && IsReceipt(body.value)
      && (200 <= status <= 299 || (status == 409 && Field(body.value, "isDuplicate") == Bool(true)))
    ensures Receive(status, body).Saved? ==>
      var result := Receive(status, body).result;
      && Str(result.assetId) == Field(Field(body.value, "asset"), "id")
      && Str(result.blobUrl) == Field(Field(body.value, "asset"), "blobUrl") && result.thumbnailUrl == result.blobUrl
      && (result.isDuplicate <==> Field(body.value, "isDuplicate") == Bool(true))
    ensures Receive(status, body) == NotSaved(HttpError(status)) <==>
      && !(200 <= status <= 299) && body != Unreadable(true)
      && !(status == 409 && body.Parsed? && Field(body.value, "success") == Bool(true)
           && !Falsy(Field(body.value, "asset")) && Field(body.value, "isDuplicate") == Bool(true))
  {
    if body.Parsed? {
      ReceiptExactly(body.value);
      FieldsMeanTruthy(body.value, "success");
    }
  }

  /** The values that count as false, each by itself. */
  predicate Falsy(value: JsValue) {
    value == Undefined || value == Null || value == Bool(false) || value == Num(0.0) || value == Str("")
  }

  /**
   * Every other outcome, exactly: an aborted read is an interruption; a 2xx answer without a usable body confirms
   * nothing that could be checked; a usable body of a 2xx answer, or of a 409 that claims a saved duplicate, is
   * unconfirmed without success or asset and incomplete if it is still no receipt.
   */
  lemma NotSavedExactly(status: int, body: Body)
    ensures Receive(status, body) == NotSaved(Interrupted) <==> body == Unreadable(true)
    ensures Receive(status, body) == NotSaved(NoReceipt) <==>
      200 <= status <= 299 && (body == Unreadable(false) || (body.Parsed? && Falsy(body.value)))
    ensures Receive(status, body) == NotSaved(NotConfirmed) <==>
      && 200 <= status <= 299 && body.Parsed? && !Falsy(body.value)
      && (Field(body.value, "success") != Bool(true) || Falsy(Field(body.value, "asset")))
    ensures Receive(status, body) == NotSaved(IncompleteReceipt) <==>
      && body.Parsed? && !IsReceipt(body.value)
      && Field(body.value, "success") == Bool(true) && !Falsy(Field(body.value, "asset"))
      && (200 <= status <= 299 || (status == 409 && Field(body.value, "isDuplicate") == Bool(true)))
  {
    if body.Parsed? {
      ReceiptExactly(body.value);
      FieldsMeanTruthy(body.value, "success");
    }
  }

  /** `toUploadResult` accepts exactly the receipts. */
  lemma ReceiptExactly(data: JsValue)
    ensures ToUploadResult(data).Saved? <==> IsReceipt(data)
    ensures IsReceipt(data) ==> Truthy(Field(data, "asset"))
  {
    FieldsMeanTruthy(Field(data, "asset"), "id");
  }

  lemma FieldsMeanTruthy(value: JsValue, name: string)
    ensures !Field(value, name).Undefined? ==> Truthy(value)
  {
  }
}
