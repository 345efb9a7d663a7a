/** The relying-site trust upsert: find the user by mobile number, take the device bound to
    it, then update or insert the one trust record for `(mobileNumber, websiteId)` when the
    action is truthy, and write nothing when it is not. */
module WebsiteController {
  import opened Js
  import opened Query
  import opened UserModel
  import opened WebsiteModel

  datatype WebsiteMessage =
    | UserMissing
    | DeviceNotAssociated
    | DetailsUpdated
    | NothingUpdated
    | DetailsSaved
    | NothingSaved

  /** Status, message, and the echoed record when one was written. */
  datatype WebsiteReply = WebsiteReply(status: nat, message: WebsiteMessage, data: Option<Website>)

  /** The request body; `action` is the truthiness of the body's `action` value. */
  datatype WebsiteRequest = WebsiteRequest(mobileNumber: Option<string>, action: bool, websiteId: Option<string>)

  /** The filter `Website.findOne({ mobileNumber, websiteId })`. */
  function TrustFor(m: Option<string>, w: Option<string>): WebsiteDoc -> bool {
    (d: WebsiteDoc) => Key(d) == (m, w)
  }

  /** `toObject()` with `_id` and `__v` deleted: the record's own fields. */
  function ResponseData(d: WebsiteDoc): Website {
    d.website
  }

  /** The echoed data depends neither on `_id` nor on `__v`, and keeps every other field. */
  lemma ResponseDataOmitsIdAndVersion(d: WebsiteDoc, id: nat, version: nat)
    ensures ResponseData(d.(id := id, version := version)) == ResponseData(d)
    ensures ResponseData(WebsiteDoc(id, version, d.website)) == d.website
  {
  }

  /** The record after an accepted decision at `now` from device `deviceId`. */
  function Authenticated(w: Website, deviceId: Option<string>, now: int): Website {
    w.(isAuthenticate := true, timestamp := Some(now), deviceId := deviceId)
  }

  /** An accepted decision keeps a valid record valid: it changes only fields the schema does not
      check. */
  lemma AuthenticatedKeepsWebsiteValid(w: Website, deviceId: Option<string>, now: int)
    requires ValidWebsite(w)
    ensures ValidWebsite(Authenticated(w, deviceId, now))
  {
  }

  /** The document a first accepted decision inserts; `id` is the fresh `_id`, `__v` starts at 0. */
  function NewTrust(req: WebsiteRequest, deviceId: Option<string>, now: int, id: nat): WebsiteDoc {
    WebsiteDoc(id, 0, NewWebsite(req.websiteId, req.mobileNumber, deviceId, Some(true), Some(now)))
  }

  /** Inserting a record whose key no stored record has keeps one record per key. */
  lemma InsertKeepsTrustKeysUnique(docs: seq<WebsiteDoc>, d: WebsiteDoc)
    requires TrustKeysUnique(docs)
    requires FindFirst(docs, TrustFor(Key(d).0, Key(d).1)).None?
    ensures TrustKeysUnique(docs + [d])
  {
  }

  /** Saving a record back under the same key keeps one record per key. */
  lemma SaveKeepsTrustKeysUnique(docs: seq<WebsiteDoc>, k: nat, d: WebsiteDoc)
    requires k < |docs| && Key(d) == Key(docs[k])
    requires TrustKeysUnique(docs)
    ensures TrustKeysUnique(docs[k := d])
  {
  }

  /** Under one record per key, the record found for a key is the only one with that key. */
  lemma FoundRecordIsOnlyOne(docs: seq<WebsiteDoc>, m: Option<string>, w: Option<string>)
    requires TrustKeysUnique(docs)
    requires FindFirst(docs, TrustFor(m, w)).Some?
    ensures forall j :: 0 <= j < |docs| && Key(docs[j]) == (m, w) ==> j == FindFirst(docs, TrustFor(m, w)).value
  {
  }

  /** The record inserted on a first accepted decision passes the website schema exactly when the
      request named a website and the mobile number has ten digits. */
  lemma InsertedRecordValidity(req: WebsiteRequest, deviceId: Option<string>, now: int, id: nat)
    ensures ValidWebsite(NewTrust(req, deviceId, now, id).website) <==>
            Truthy(req.websiteId) && Truthy(req.mobileNumber) && Validators.ValidMobileNumber(req.mobileNumber.value)
  {
  }

  method AuthenticateWebsite(users: UserCollection, websites: WebsiteCollection, req: WebsiteRequest,
                             now: int, newId: nat) returns (reply: WebsiteReply)
    requires forall k :: 0 <= k < |websites.docs| ==> websites.docs[k].id != newId
    modifies websites
    ensures var found := FindFirst(users.docs, MobileIs(req.mobileNumber));
            found.None? ==>
              reply == WebsiteReply(404, UserMissing, None) && websites.docs == old(websites.docs)
    ensures var found := FindFirst(users.docs, MobileIs(req.mobileNumber));
            found.Some? && !Truthy(users.docs[found.value].deviceId) ==>
              reply == WebsiteReply(400, DeviceNotAssociated, None) && websites.docs == old(websites.docs)
    ensures var found := FindFirst(users.docs, MobileIs(req.mobileNumber));
            found.Some? && Truthy(users.docs[found.value].deviceId) ==>
              var device := users.docs[found.value].deviceId;
              var existing := FindFirst(old(websites.docs), TrustFor(req.mobileNumber, req.websiteId));
              (existing.Some? && req.action ==>
                 var d := old(websites.docs)[existing.value];
                 var updated := d.(website := Authenticated(d.website, device, now));
                 websites.docs == old(websites.docs)[existing.value := updated] &&
                 FindFirst(websites.docs, TrustFor(req.mobileNumber, req.websiteId)) == existing &&
                 reply == WebsiteReply(200, DetailsUpdated, Some(ResponseData(updated)))) &&
              (existing.Some? && !req.action ==>
                 reply == WebsiteReply(200, NothingUpdated, None) && websites.docs == old(websites.docs)) &&
              (existing.None? && req.action ==>
                 var inserted := NewTrust(req, device, now, newId);
                 websites.docs == old(websites.docs) + [inserted] &&
                 FindFirst(websites.docs, TrustFor(req.mobileNumber, req.websiteId)) == Some(|old(websites.docs)|) &&
                 reply == WebsiteReply(201, DetailsSaved, Some(ResponseData(inserted)))) &&
              (existing.None? && !req.action ==>
                 reply == WebsiteReply(200, NothingSaved, None) && websites.docs == old(websites.docs))
    ensures !req.action ==> websites.docs == old(websites.docs)
    ensures TrustKeysUnique(old(websites.docs)) ==> TrustKeysUnique(websites.docs)
    ensures IdsDistinct(old(websites.docs)) ==> IdsDistinct(websites.docs)
    ensures AllWebsitesValid(old(websites.docs)) &&
            Truthy(req.websiteId) && Truthy(req.mobileNumber) && Validators.ValidMobileNumber(req.mobileNumber.value) ==>
              AllWebsitesValid(websites.docs)
    ensures |old(websites.docs)| <= |websites.docs|
    ensures forall k :: 0 <= k < |websites.docs| && !websites.docs[k].website.isAuthenticate ==>
              k < |old(websites.docs)| && websites.docs[k] == old(websites.docs)[k]
  {
    var found := FindFirst(users.docs, MobileIs(req.mobileNumber));
    if found.None? {
      return WebsiteReply(404, UserMissing, None);
    }
    var deviceId := users.docs[found.value].deviceId;
    if !Truthy(deviceId) {
      return WebsiteReply(400, DeviceNotAssociated, None);
    }
    var existing := FindFirst(websites.docs, TrustFor(req.mobileNumber, req.websiteId));
    if existing.Some? {
      if req.action {
        var k := existing.value;
        var website := websites.docs[k].website;
        website := website.(isAuthenticate := true);
        website := website.(timestamp := Some(now));
        website := website.(deviceId := deviceId);
        var doc := websites.docs[k].(website := website);
        if TrustKeysUnique(websites.docs) {
          SaveKeepsTrustKeysUnique(websites.docs, k, doc);
        }
        if ValidWebsite(websites.docs[k].website) {
          AuthenticatedKeepsWebsiteValid(websites.docs[k].website, deviceId, now);
        }
        SaveKeepsIdsAndValidity(websites.docs, k, doc);
        FindFirstAfterSave(websites.docs, TrustFor(req.mobileNumber, req.websiteId), k, doc);
        websites.Save(k, doc);
        reply := WebsiteReply(200, DetailsUpdated, Some(ResponseData(doc)));
      } else {
        reply := WebsiteReply(200, NothingUpdated, None);
      }
    } else {
      if req.action {
        var doc := NewTrust(req, deviceId, now, newId);
        if TrustKeysUnique(websites.docs) {
          InsertKeepsTrustKeysUnique(websites.docs, doc);
        }
        InsertedRecordValidity(req, deviceId, now, newId);
        InsertKeepsIdsAndValidity(websites.docs, doc);
        FindFirstAfterInsert(websites.docs, TrustFor(req.mobileNumber, req.websiteId), doc);
        websites.Insert(doc);
        reply := WebsiteReply(201, DetailsSaved, Some(ResponseData(doc)));
      } else {
        reply := WebsiteReply(200, NothingSaved, None);
      }
    }
  }
}
