/** The `Website` model: one trust record per relying-site decision, its schema, its default
    and the collection the website controller reads and saves. */
module WebsiteModel {
  import opened Js
  import opened Validators

  /** The fields of a trust record. `timestamp` is written by the controller although the schema
      does not declare it; strict mode, which would drop it, is not modelled. */
  datatype Website = Website(
    websiteId: Option<string>,
    mobileNumber: Option<string>,
    deviceId: Option<string>,
    isAuthenticate: bool,
    timestamp: Option<int>)

  /** A stored document: the record plus Mongoose's `_id` and version key `__v`. */
  datatype WebsiteDoc = WebsiteDoc(id: nat, version: nat, website: Website)

  /** `new Website({...})`: an `isAuthenticate` not given takes the schema default, false. */
  function NewWebsite(websiteId: Option<string>, mobileNumber: Option<string>, deviceId: Option<string>,
                      isAuthenticate: Option<bool>, timestamp: Option<int>): (w: Website)
    ensures isAuthenticate.None? ==> !w.isAuthenticate
    ensures isAuthenticate.Some? ==> w.isAuthenticate == isAuthenticate.value
  {
    Website(websiteId, mobileNumber, deviceId, isAuthenticate.GetOr(false), timestamp)
  }

  /** The website schema as declared: `websiteId` required, `mobileNumber` required and ten
      digits; `deviceId` optional; no `timestamp` path at all. A valid record's mobile number is
      a ten-digit numeral. */
  predicate ValidWebsite(w: Website): (ok: bool)
    ensures ok ==> w.websiteId.Some? && w.websiteId.value != ""
    ensures ok ==> w.mobileNumber.Some? && exists n: nat :: n < Pow10(10) && Numeral(n, 10) == w.mobileNumber.value
  {
    MobileNumberIsTenDigitNumeral(w.mobileNumber.GetOr(""));
    Truthy(w.websiteId) && Truthy(w.mobileNumber) && ValidMobileNumber(w.mobileNumber.value)
  }

  /** Both required fields are needed, and the mobile number must have ten digits. */
  lemma WebsiteSchemaRequiredFields(w: Website, m: string)
    ensures !ValidWebsite(w.(websiteId := None)) && !ValidWebsite(w.(websiteId := Some("")))
    ensures !ValidWebsite(w.(mobileNumber := None))
    ensures !ValidMobileNumber(m) ==> !ValidWebsite(w.(mobileNumber := Some(m)))
  {
  }

  /** Validity depends neither on the optional `deviceId` nor on the undeclared `timestamp`. */
  lemma SchemaIgnoresDeviceAndTimestamp(w: Website, d: Option<string>, t: Option<int>)
    ensures ValidWebsite(w.(deviceId := d, timestamp := t)) == ValidWebsite(w)
  {
  }

  /** The key of the trust ledger: `(mobileNumber, websiteId)`. */
  function Key(d: WebsiteDoc): (Option<string>, Option<string>) {
    (d.website.mobileNumber, d.website.websiteId)
  }

  /** At most one record per `(mobileNumber, websiteId)`. */
  ghost predicate TrustKeysUnique(docs: seq<WebsiteDoc>) {
    forall i, j :: 0 <= i < j < |docs| ==> Key(docs[i]) != Key(docs[j])
  }

  /** Every stored record passes the schema. */
  ghost predicate AllWebsitesValid(docs: seq<WebsiteDoc>) {
    forall k :: 0 <= k < |docs| ==> ValidWebsite(docs[k].website)
  }

  /** No two stored records share an `_id`. */
  ghost predicate IdsDistinct(docs: seq<WebsiteDoc>) {
    forall i, j :: 0 <= i < j < |docs| ==> docs[i].id != docs[j].id
  }

  /** Saving a valid record back under its own `_id` keeps ids distinct and every record valid. */
  lemma SaveKeepsIdsAndValidity(docs: seq<WebsiteDoc>, k: nat, d: WebsiteDoc)
    requires k < |docs| && d.id == docs[k].id
    ensures IdsDistinct(docs) ==> IdsDistinct(docs[k := d])
    ensures AllWebsitesValid(docs) && ValidWebsite(d.website) ==> AllWebsitesValid(docs[k := d])
  {
  }

  /** Appending a valid record under an unused `_id` keeps ids distinct and every record valid. */
  lemma InsertKeepsIdsAndValidity(docs: seq<WebsiteDoc>, d: WebsiteDoc)
    requires forall k :: 0 <= k < |docs| ==> docs[k].id != d.id
    ensures IdsDistinct(docs) ==> IdsDistinct(docs + [d])
    ensures AllWebsitesValid(docs) && ValidWebsite(d.website) ==> AllWebsitesValid(docs + [d])
  {
  }

  /** The `websites` collection; `Insert` and `Save` as for users. */
  class WebsiteCollection {
    var docs: seq<WebsiteDoc>

    constructor (initial: seq<WebsiteDoc>)
      ensures docs == initial
    {
      docs := initial;
    }

    method Insert(d: WebsiteDoc)
      modifies this
      ensures docs == old(docs) + [d]
    {
      docs := docs + [d];
    }

    method Save(i: nat, d: WebsiteDoc)
      requires i < |docs|
      modifies this
      ensures docs == old(docs)[i := d]
    {
      docs := docs[i := d];
    }
  }
}
