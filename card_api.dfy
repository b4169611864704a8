/**
 * The two card endpoints of server.js: `POST /api/cards` (validate, insert,
 * build the share/viewer/QR links) and `GET /api/cards/:card_id` (active-card
 * lookup), with their mapping of database errors to HTTP status codes.
 *
 * `connected` stands for the module-level database handle `supabaseAdmin`,
 * assigned once at start-up; `encode` stands for `encodeURIComponent`.
 */
module CardApi {
  import opened Wrappers
  import opened JsStrings
  import opened CardStore
  import BaseUrl

  /** The JSON body of a create request; each field may be absent. */
  datatype CreateRequest = CreateRequest(cardId: Option<string>, messageType: Option<string>, messageText: Option<string>)

  /** JavaScript truthiness of an optional string: present and non-empty. */
  predicate Truthy(v: Option<string>) {
    v.Some? && v.value != ""
  }

  /** The links returned with a saved card. */
  datatype Urls = Urls(share: string, viewer: string, viewerLocal: string, qrCode: string, maker: string)

  /** JSON response bodies: `success: false` with an error, or one of the two successes. */
  datatype Body =
    | ErrorBody(error: string, message: Option<string>, details: Option<string>, required: Option<seq<string>>)
    | Saved(notice: string, stored: Option<Card>, urls: Urls)   // `message`, `card: data` and `urls`
    | Found(card: Card, ngrokUrl: string)

  datatype Response = Response(status: int, body: Body) {
    /** The body's `success` flag. */
    predicate Success() {
      !body.ErrorBody?
    }
  }

  const RequiredFields := ["card_id", "message_type"]

  // The `error` strings and fixed messages of the two handlers.
  const MissingFieldsError := "Missing required fields"
  const UnavailableError := "Database service temporarily unavailable"
  const DuplicateError := "Duplicate card ID"
  const InsertFailedError := "Database operation failed"
  const SavedNotice := "Card saved successfully!"
  const NotFoundError := "Card not found"
  const QueryFailedError := "Database query failed"

  /** The 409 message, quoting the id as the request gave it. */
  function DuplicateMessage(cardId: string): (msg: string) {
    "Card \"" + cardId + "\" already exists. Please use a different ID."
  }

  /** The 404 message for a lookup the database answered with "no rows". */
  function NotFoundMessage(cardId: string): (msg: string) {
    "No card found with ID: " + cardId
  }

  const MissingFields := Response(400, ErrorBody(MissingFieldsError, None, None, Some(RequiredFields)))

  const Unavailable := Response(503, ErrorBody(UnavailableError, None, None, None))

  /** The row a create request inserts: text fields trimmed, an empty text stored as NULL. */
  function NewRecord(cardId: string, messageType: string, messageText: Option<string>): (rec: Card) {
    Card(Trim(cardId), Trim(messageType),
         if Truthy(messageText) then Some(Trim(messageText.value)) else None,
         Active)
  }

  /** The viewer page's path, to which a card id is appended. */
  const ViewerPath := "/viewer.html?card="

  /** The origin the server was developed on; the local viewer link always names it. */
  const LocalOrigin := "http://localhost:3000"

  function ViewerUrl(cardId: string): (url: string) {
    BaseUrl.YourNgrokUrl + ViewerPath + cardId
  }

  const QrService := "https://api.qrserver.com/v1/create-qr-code/?size=300x300&"
  const QrOptions := "format=png&margin=10"

  /** The QR image link: the encoded viewer link as the `data` parameter. */
  function QrCodeUrl(viewer: string, encode: string -> string): (url: string) {
    QrService + "data=" + encode(viewer) + "&" + QrOptions
  }

  /** The QR link carries exactly the encoded viewer link as its `data` parameter. */
  lemma QrCarriesViewer(viewer: string, encode: string -> string)
    ensures Contains(QrCodeUrl(viewer, encode), "data=" + encode(viewer) + "&")
  {
    var param := "data=" + encode(viewer) + "&";
    assert QrCodeUrl(viewer, encode) == QrService + param + QrOptions;
    ContainsInfix(QrService, param, QrOptions);
  }

  /** The links of a saved card, all built from `card_id` as the request gave it. */
  function SavedUrls(cardId: string, encode: string -> string): (urls: Urls) {
    var viewer := ViewerUrl(cardId);
    Urls(ViewerPath + cardId,
         viewer,
         LocalOrigin + ViewerPath + cardId,
         QrCodeUrl(viewer, encode),
         BaseUrl.YourNgrokUrl + "/maker.html")
  }

  /** The create handler's answer to the insert's reply. */
  function CreateFromReply(cardId: string, reply: Reply, encode: string -> string): (resp: Response) {
    if reply.error.Some? then
      if reply.error.value.code == UniqueViolation then
        Response(409, ErrorBody(DuplicateError, Some(DuplicateMessage(cardId)), None, None))
      else
        Response(500, ErrorBody(InsertFailedError, None, Some(reply.error.value.message), None))
    else
      Response(201, Saved(SavedNotice, reply.data, SavedUrls(cardId, encode)))
  }

  /** The response of a create and the table after it. */
  datatype Outcome = Outcome(response: Response, table: Table)

  /**
   * `POST /api/cards`: validation first, then the handle check, then the
   * insert. Only a 201 changes the table, and it keeps every row unique.
   */
  function Create(connected: bool, t: Table, req: CreateRequest, fault: Option<DbError>,
                  encode: string -> string): (out: Outcome)
    ensures out.response.status in {201, 400, 409, 500, 503}
    ensures out.response.Success() <==> out.response.status == 201
    ensures out.response.status != 201 ==> out.table == t
    ensures KeyedById(t) ==> KeyedById(out.table)
    ensures forall k :: k in t ==> k in out.table && out.table[k] == t[k]
  {
    if !Truthy(req.cardId) || !Truthy(req.messageType) then Outcome(MissingFields, t)
    else if !connected then Outcome(Unavailable, t)
    else
      var rec := NewRecord(req.cardId.value, req.messageType.value, req.messageText);
      var (reply, t') := Insert(t, rec, fault);
      Outcome(CreateFromReply(req.cardId.value, reply, encode), t')
  }

  /** The get handler's answer to the select's reply. */
  function GetFromReply(cardId: string, reply: Reply): (resp: Response) {
    if reply.error.Some? then
      if reply.error.value.code == NoRows then
        Response(404, ErrorBody(NotFoundError, Some(NotFoundMessage(cardId)), None, None))
      else
        Response(500, ErrorBody(QueryFailedError, None, Some(reply.error.value.message), None))
    else if reply.data.None? then
      Response(404, ErrorBody(NotFoundError, None, None, None))
    else
      Response(200, Found(reply.data.value, ViewerUrl(cardId)))
  }

  /** `GET /api/cards/:card_id`: the id is used exactly as it appears in the path. */
  function Get(connected: bool, t: Table, cardId: string, fault: Option<DbError>): (r: Response)
    ensures r.status in {200, 404, 500, 503}
    ensures r.Success() <==> r.status == 200
  {
    if !connected then Unavailable
    else GetFromReply(cardId, SelectActive(t, cardId, fault))
  }

  /** Every key of the table is already trimmed, as keys inserted by `Create` are. */
  ghost predicate TrimmedKeys(t: Table) {
    forall k :: k in t ==> IsTrimmed(k)
  }

  // ---- Create ----

  /** The status of a create, as a function of the request, the handle, the table and the store. */
  lemma CreateStatusTable(connected: bool, t: Table, req: CreateRequest, fault: Option<DbError>,
                          encode: string -> string)
    ensures var s := Create(connected, t, req, fault, encode).response.status;
      var valid := Truthy(req.cardId) && Truthy(req.messageType);
      && (s == 400 <==> !valid)
      && (s == 503 <==> valid && !connected)
      && (s == 409 <==> valid && connected
                        && (if fault.Some? then fault.value.code == UniqueViolation else Trim(req.cardId.value) in t))
      && (s == 500 <==> valid && connected && fault.Some? && fault.value.code != UniqueViolation)
      && (s == 201 <==> valid && connected && fault.None? && Trim(req.cardId.value) !in t)
  {
  }

  /** A missing or empty `card_id` or `message_type` is rejected before the handle is consulted. */
  lemma MissingFieldsFirst(connected: bool, t: Table, req: CreateRequest, fault: Option<DbError>,
                           encode: string -> string)
    requires !Truthy(req.cardId) || !Truthy(req.messageType)
    ensures Create(connected, t, req, fault, encode) == Outcome(MissingFields, t)
    ensures MissingFields.body.required == Some(["card_id", "message_type"])
  {
  }

  /** The row a successful create inserts, under its trimmed id. */
  lemma CreateInsertsNormalisedRecord(connected: bool, t: Table, req: CreateRequest, fault: Option<DbError>,
                                      encode: string -> string)
    requires Create(connected, t, req, fault, encode).response.status == 201
    ensures var out := Create(connected, t, req, fault, encode);
      var c := NewRecord(req.cardId.value, req.messageType.value, req.messageText);
      && req.cardId.value != "" && req.messageType.value != ""
      && IsTrimmed(c.cardId) && IsTrimmed(c.messageType)
      && (c.messageText.None? <==> !Truthy(req.messageText))
      && (c.messageText.Some? ==> IsTrimmed(c.messageText.value))
      && c.status == Active
      && c.cardId !in t
      && out.table == t[c.cardId := c]
      && out.response.body == Saved(SavedNotice, Some(c), SavedUrls(req.cardId.value, encode))
  {
    TrimSpec(req.cardId.value);
    TrimSpec(req.messageType.value);
    if Truthy(req.messageText) {
      TrimSpec(req.messageText.value);
    }
  }

  /** A request whose fields need no trimming is stored exactly as sent. */
  lemma NewRecordOfTrimmed(cardId: string, messageType: string, messageText: string)
    requires IsTrimmed(cardId) && IsTrimmed(messageType) && messageText != "" && IsTrimmed(messageText)
    ensures NewRecord(cardId, messageType, Some(messageText)) == Card(cardId, messageType, Some(messageText), Active)
  {
    TrimFixesTrimmed(cardId);
    TrimFixesTrimmed(messageType);
    TrimFixesTrimmed(messageText);
  }

  /**
   * A whitespace-only id is truthy, so it passes validation, and is stored
   * trimmed, as the empty id; the links still carry the id as sent.
   */
  lemma BlankIdStoredEmpty(t: Table, req: CreateRequest, encode: string -> string)
    requires req.cardId.Some? && req.cardId.value != "" && AllWhitespace(req.cardId.value)
    requires Truthy(req.messageType) && "" !in t
    ensures var out := Create(true, t, req, None, encode);
      && out.response.status == 201
      && "" in out.table && out.table[""] == out.response.body.stored.value
      && out.response.body.urls.share == ViewerPath + req.cardId.value
  {
    TrimEmptyIffBlank(req.cardId.value);
  }

  /**
   * The text is stored trimmed when truthy and as NULL when absent or empty,
   * so a whitespace-only text is stored as the empty string, not as NULL.
   */
  lemma MessageTextNormalised(cardId: string, messageType: string, text: string)
    ensures NewRecord(cardId, messageType, None).messageText == None
    ensures NewRecord(cardId, messageType, Some("")).messageText == None
    ensures text != "" ==> NewRecord(cardId, messageType, Some(text)).messageText == Some(Trim(text))
    ensures text != "" && AllWhitespace(text) ==> NewRecord(cardId, messageType, Some(text)).messageText == Some("")
  {
    TrimEmptyIffBlank(text);
  }

  /** A create whose trimmed id is taken answers 409 and leaves the table, that row included, as it was. */
  lemma DuplicateIdRejected(t: Table, req: CreateRequest, encode: string -> string)
    requires Truthy(req.cardId) && Truthy(req.messageType)
    requires Trim(req.cardId.value) in t
    ensures var out := Create(true, t, req, None, encode);
      && out.response.status == 409
      && out.response.body.error == DuplicateError
      && out.response.body.message == Some(DuplicateMessage(req.cardId.value))
      && out.table == t
  {
  }

  /** Any other store error answers 500 with the store's message as `details`. */
  lemma StoreFailureReported(t: Table, req: CreateRequest, e: DbError, encode: string -> string)
    requires Truthy(req.cardId) && Truthy(req.messageType) && e.code != UniqueViolation
    ensures Create(true, t, req, Some(e), encode)
         == Outcome(Response(500, ErrorBody(InsertFailedError, None, Some(e.message), None)), t)
  {
  }

  /**
   * The links of a 201: viewer and share links end in `?card=` and the id as
   * the request gave it (untrimmed), and the QR link carries the encoded
   * viewer link.
   */
  lemma CreatedLinks(connected: bool, t: Table, req: CreateRequest, fault: Option<DbError>,
                     encode: string -> string)
    requires Create(connected, t, req, fault, encode).response.status == 201
    ensures var urls := Create(connected, t, req, fault, encode).response.body.urls;
      var suffix := ViewerPath + req.cardId.value;
      && urls.viewer == BaseUrl.YourNgrokUrl + suffix
      && urls.share == suffix
      && urls.viewerLocal == LocalOrigin + suffix
      && urls.maker == BaseUrl.YourNgrokUrl + "/maker.html"
      && Contains(urls.qrCode, "data=" + encode(urls.viewer) + "&")
  {
    var out := Create(connected, t, req, fault, encode);
    assert out.response.body.urls == SavedUrls(req.cardId.value, encode);
    QrCarriesViewer(ViewerUrl(req.cardId.value), encode);
  }

  /** Created keys are trimmed, so a table of trimmed keys stays one. */
  lemma CreateKeepsKeysTrimmed(connected: bool, t: Table, req: CreateRequest, fault: Option<DbError>,
                               encode: string -> string)
    requires TrimmedKeys(t)
    ensures TrimmedKeys(Create(connected, t, req, fault, encode).table)
  {
    if req.cardId.Some? {
      TrimSpec(req.cardId.value);
    }
  }

  // ---- Get ----

  /** A get answers 200 exactly for an active row with exactly that id, and returns that row. */
  lemma GetFindsOnlyActive(t: Table, cardId: string)
    requires KeyedById(t)
    ensures Get(true, t, cardId, None).status == 200
            <==> exists c :: c in t.Values && c.cardId == cardId && c.status == Active
    ensures Get(true, t, cardId, None).status == 200
            ==> Get(true, t, cardId, None) == Response(200, Found(t[cardId], ViewerUrl(cardId)))
    ensures Get(true, t, cardId, None).status != 200 ==>
              Get(true, t, cardId, None)
              == Response(404, ErrorBody(NotFoundError, Some(NotFoundMessage(cardId)), None, None))
  {
    SelectFindsActiveRow(t, cardId, if cardId in t then t[cardId] else Card(cardId, "", None, Active));
  }

  /** An id that no row has is not found. */
  lemma UnknownIdNotFound(connected: bool, t: Table, cardId: string)
    requires KeyedById(t) && connected
    requires forall c :: c in t.Values ==> c.cardId != cardId
    ensures Get(connected, t, cardId, None).status == 404
  {
    GetFindsOnlyActive(t, cardId);
  }

  /** The get path does not trim: an id with whitespace at an end misses a table of trimmed keys. */
  lemma UntrimmedIdNotFound(t: Table, cardId: string)
    requires KeyedById(t) && TrimmedKeys(t) && !IsTrimmed(cardId)
    ensures Get(true, t, cardId, None).status == 404
  {
    UnknownIdNotFound(true, t, cardId);
  }

  /** Store errors on the get path: the no-rows code is a 404, any other a 500. */
  lemma GetErrorMapping(t: Table, cardId: string, e: DbError)
    ensures Get(true, t, cardId, Some(e)).status == if e.code == NoRows then 404 else 500
    ensures e.code != NoRows ==> Get(true, t, cardId, Some(e)).body.details == Some(e.message)
  {
  }

  /** Without a database handle a valid create answers 503 and nothing is inserted. */
  lemma NoHandleUnavailable(t: Table, req: CreateRequest, fault: Option<DbError>,
                            encode: string -> string)
    requires Truthy(req.cardId) && Truthy(req.messageType)
    ensures Create(false, t, req, fault, encode) == Outcome(Unavailable, t)
  {
  }

  /** Without a database handle every get answers 503. */
  lemma NoHandleGetUnavailable(t: Table, cardId: string, fault: Option<DbError>)
    ensures Get(false, t, cardId, fault) == Unavailable
  {
  }

  // ---- Create, then get ----

  /**
   * The links of a card created under an id with whitespace at an end do not
   * lead back to it: the key is stored trimmed, while the links and the get
   * path carry the id as sent.
   */
  lemma UntrimmedLinkNotFound(t: Table, req: CreateRequest, encode: string -> string)
    requires KeyedById(t) && TrimmedKeys(t)
    requires Truthy(req.cardId) && Truthy(req.messageType)
    requires Trim(req.cardId.value) !in t && !IsTrimmed(req.cardId.value)
    ensures var out := Create(true, t, req, None, encode);
      && out.response.status == 201
      && out.response.body.urls.share == ViewerPath + req.cardId.value
      && out.response.body.urls.viewer == BaseUrl.YourNgrokUrl + (ViewerPath + req.cardId.value)
      && Get(true, out.table, req.cardId.value, None).status == 404
  {
    var out := Create(true, t, req, None, encode);
    CreateThenGet(t, req, encode);
    CreatedLinks(true, t, req, None, encode);
    CreateKeepsKeysTrimmed(true, t, req, None, encode);
    UntrimmedIdNotFound(out.table, req.cardId.value);
  }

  /**
   * A card created under a fresh id is then found under its trimmed id with
   * the trimmed type and text it was sent with; for an id sent without
   * surrounding whitespace that is the id as sent.
   */
  lemma CreateThenGet(t: Table, req: CreateRequest, encode: string -> string)
    requires KeyedById(t)
    requires Truthy(req.cardId) && Truthy(req.messageType)
    requires Trim(req.cardId.value) !in t
    ensures var out := Create(true, t, req, None, encode);
      var id := Trim(req.cardId.value);
      var got := Get(true, out.table, id, None);
      && out.response.status == 201
      && got.status == 200
      && got.body.card == out.response.body.stored.value
      && got.body.card.cardId == id
      && got.body.card.messageType == Trim(req.messageType.value)
      && got.body.card.messageText == (if Truthy(req.messageText) then Some(Trim(req.messageText.value)) else None)
      && (IsTrimmed(req.cardId.value) ==> Get(true, out.table, req.cardId.value, None) == got)
  {
    var out := Create(true, t, req, None, encode);
    var id := Trim(req.cardId.value);
    var c := NewRecord(req.cardId.value, req.messageType.value, req.messageText);
    assert out.table == t[id := c];
    GetFindsOnlyActive(out.table, id);
    assert c in out.table.Values;
    TrimFixesTrimmed(req.cardId.value);
  }

  /**
   * The first half of the end-to-end test script, for a fresh id that needs
   * no trimming: the card is saved (201) under that id with its viewer link,
   * and then found (200).
   */
  lemma TestFlowCreateAndRead(t: Table, id: string, req: CreateRequest, encode: string -> string)
    requires KeyedById(t) && id != "" && IsTrimmed(id) && id !in t
    requires req.cardId == Some(id) && Truthy(req.messageType)
    ensures var first := Create(true, t, req, None, encode);
      && first.response.status == 201
      && first.table == t[id := first.response.body.stored.value]
      && first.response.body.stored.value.cardId == id
      && first.response.body.urls.viewer == BaseUrl.YourNgrokUrl + (ViewerPath + id)
      && Get(true, first.table, id, None).status == 200
  {
    TrimFixesTrimmed(id);
    CreateThenGet(t, req, encode);
    CreatedLinks(true, t, req, None, encode);
  }

  /**
   * The second half, on the table the first half left: the same id again is
   * a 409 that changes nothing and an id never created is a 404. A request
   * without a type on that table is a 400; the script itself does not send one.
   */
  lemma TestFlowRejects(t: Table, c: Card, again: CreateRequest, unknown: string, encode: string -> string)
    requires KeyedById(t) && c.cardId != "" && IsTrimmed(c.cardId) && c.cardId !in t
    requires again.cardId == Some(c.cardId) && Truthy(again.messageType)
    requires unknown != c.cardId && forall r :: r in t.Values ==> r.cardId != unknown
    ensures var t1 := t[c.cardId := c];
      var second := Create(true, t1, again, None, encode);
      && second.response.status == 409
      && second.table == t1
      && Get(true, t1, unknown, None).status == 404
      && Create(true, t1, CreateRequest(Some(c.cardId), None, None), None, encode).response == MissingFields
  {
    var t1 := t[c.cardId := c];
    TrimFixesTrimmed(c.cardId);
    DuplicateIdRejected(t1, again, encode);
    forall d | d in t1.Values ensures d.cardId != unknown {
      var k :| k in t1 && t1[k] == d;
      if k != c.cardId {
        assert d in t.Values;
      }
    }
    UnknownIdNotFound(true, t1, unknown);
  }

  /**
   * The server process: the database handle, fixed at start-up, and the
   * `cards` table it reaches.
   */
  class Server {
    const connected: bool
    var cards: Table

    ghost predicate Valid()
      reads this
    {
      KeyedById(cards)
    }

    constructor (connected: bool, cards: Table)
      requires KeyedById(cards)
      ensures Valid() && this.connected == connected && this.cards == cards
    {
      this.connected := connected;
      this.cards := cards;
    }

    /** The database's insert-if-absent on the `card_id` uniqueness constraint. */
    method InsertRow(rec: Card, fault: Option<DbError>) returns (reply: Reply)
      requires Valid()
      modifies this
      ensures Valid()
      ensures (reply, cards) == Insert(old(cards), rec, fault)
    {
      if fault.Some? {
        reply := Reply(None, fault);
      } else if rec.cardId in cards {
        reply := Reply(None, Some(DuplicateKey));
      } else {
        cards := cards[rec.cardId := rec];
        reply := Reply(Some(rec), None);
      }
    }

    /** The `POST /api/cards` handler. */
    method PostCard(req: CreateRequest, fault: Option<DbError>, encode: string -> string) returns (resp: Response)
      requires Valid()
      modifies this
      ensures Valid()
      ensures Outcome(resp, cards) == Create(connected, old(cards), req, fault, encode)
      ensures resp.status != 201 ==> cards == old(cards)
    {
      if !Truthy(req.cardId) || !Truthy(req.messageType) {
        return MissingFields;
      }
      if !connected {
        return Unavailable;
      }
      var rec := NewRecord(req.cardId.value, req.messageType.value, req.messageText);
      var reply := InsertRow(rec, fault);
      resp := CreateFromReply(req.cardId.value, reply, encode);
    }

    /** The `GET /api/cards/:card_id` handler. */
    function GetCard(cardId: string, fault: Option<DbError>): (r: Response)
      reads this
      requires Valid()
      ensures r.status == 200
              <==> connected && fault.None? && exists c :: c in cards.Values && c.cardId == cardId && c.status == Active
      ensures r.status == 200 ==> r == Response(200, Found(cards[cardId], ViewerUrl(cardId)))
    {
      GetFindsOnlyActive(cards, cardId);
      Get(connected, cards, cardId, fault)
    }
  }
}
