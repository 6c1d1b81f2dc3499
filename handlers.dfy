/**
 * The book handlers (handlers.go): the object key of an upload, the
 * confirmation of an uploaded book in one transaction, reading a book with
 * its ownership check, and the reading-progress update.
 */
module Handlers {
  import opened Wrappers
  import opened Http
  import opened GoStd
  import opened Persistence
  import opened Auth

  /** uuid.UUID: sixteen bytes. */
  type Uuid = b: seq<bv8> | |b| == 16 witness seq(16, _ => 0 as bv8)

  /** A row of `books`. The source never sets the author. */
  datatype Book = Book(id: Uuid, ownerId: string, s3Key: string, title: string, author: Option<string>, totalPages: int)

  /** The key of `reading_progress`: one row per book and user. */
  datatype ProgressKey = ProgressKey(bookId: Uuid, userId: string)

  /** A row of `reading_progress`. */
  datatype ReadingProgress = ReadingProgress(bookId: Uuid, userId: string, currentPage: int, percentageComplete: real)

  /** The two tables the handlers write. */
  datatype Tables = Tables(books: map<Uuid, Book>, progress: map<ProgressKey, ReadingProgress>)

  /**
   * The store's invariant: books are stored under their IDs with distinct
   * object keys; every book has a progress row for its owner, and every
   * progress row belongs to a book and to that book's owner.
   */
  ghost predicate TablesValid(t: Tables)
  {
    && (forall id :: id in t.books ==> t.books[id].id == id)
    && (forall i, j :: i in t.books && j in t.books && i != j ==> t.books[i].s3Key != t.books[j].s3Key)
    && (forall id :: id in t.books ==> ProgressKey(id, t.books[id].ownerId) in t.progress)
    && (forall k :: k in t.progress ==>
          && k.bookId in t.books
          && k.userId == t.books[k.bookId].ownerId
          && t.progress[k].bookId == k.bookId
          && t.progress[k].userId == k.userId)
  }

  // ---------------------------------------------------------------------
  // Upload key (generateUploadUrlHandler)
  // ---------------------------------------------------------------------

  /** The object key of an upload: the owner's ID, a slash, and the client's name. */
  function UploadKey(ownerId: string, name: string): (key: string)
    ensures |key| == |ownerId| + 1 + |name|
    ensures key[..|ownerId|] == ownerId && key[|ownerId|] == '/' && key[|ownerId| + 1..] == name
  {
    ownerId + "/" + name
  }

  /** The position of the first slash, or the length when there is none. */
  function SlashIndex(s: string): (i: nat)
    ensures i <= |s|
    ensures i < |s| ==> s[i] == '/'
    ensures forall j :: 0 <= j < i ==> s[j] != '/'
    decreases |s|
  {
    if |s| == 0 || s[0] == '/' then 0 else 1 + SlashIndex(s[1..])
  }

  /** The owner and the name a key was built from, cut at its first slash. */
  function ParseUploadKey(key: string): (string, string)
  {
    var i := SlashIndex(key);
    if i < |key| then (key[..i], key[i + 1..]) else (key, "")
  }

  /**
   * For owner IDs without a slash, the key gives back its owner and its
   * name: keys of different owners never coincide, and one owner's names
   * map to distinct keys.
   */
  lemma UploadKeyRoundTrip(ownerId: string, name: string)
    requires '/' !in ownerId
    ensures ParseUploadKey(UploadKey(ownerId, name)) == (ownerId, name)
  {
    var key := UploadKey(ownerId, name);
    assert forall j :: 0 <= j < |ownerId| ==> key[j] == ownerId[j] && ownerId[j] in ownerId;
    assert SlashIndex(key) == |ownerId|;
  }

  /** The body of `POST /upload-book`; `name` is required. */
  datatype UploadBookRequest = UploadBookRequest(name: string)

  datatype UploadUrlResponse = UploadUrlFailed(status: int) | UploadUrlIssued(presignedUrl: string)

  /**
   * generateUploadUrlHandler: a signed PUT URL for the key under the
   * caller's own ID. `presignUpload` is the signing call.
   */
  function GenerateUploadUrl(ctxValues: map<string, CtxValue>, req: UploadBookRequest,
                             presignUpload: string -> Option<string>): (r: UploadUrlResponse)
    ensures GetDBUserFromRequest(ctxValues).Err? ==> r == UploadUrlFailed(StatusInternalServerError)
    ensures GetDBUserFromRequest(ctxValues).Ok? && req.name == "" ==> r == UploadUrlFailed(StatusBadRequest)
    ensures r.UploadUrlIssued? <==>
      && GetDBUserFromRequest(ctxValues).Ok?
      && req.name != ""
      && presignUpload(UploadKey(GetDBUserFromRequest(ctxValues).value.id, req.name)).Some?
    ensures r.UploadUrlIssued? ==>
      Some(r.presignedUrl) == presignUpload(UploadKey(GetDBUserFromRequest(ctxValues).value.id, req.name))
    ensures GetDBUserFromRequest(ctxValues).Ok? && req.name != ""
            && presignUpload(UploadKey(GetDBUserFromRequest(ctxValues).value.id, req.name)).None?
      ==> r == UploadUrlFailed(StatusInternalServerError)
    ensures r.UploadUrlFailed? ==> r.status in {StatusBadRequest, StatusInternalServerError}
  {
    match GetDBUserFromRequest(ctxValues)
    case Err(_) => UploadUrlFailed(StatusInternalServerError)
    case Ok(dbUser) =>
      if req.name == "" then UploadUrlFailed(StatusBadRequest)
      else match presignUpload(UploadKey(dbUser.id, req.name))
        case None => UploadUrlFailed(StatusInternalServerError)
        case Some(url) => UploadUrlIssued(url)
  }

  // ---------------------------------------------------------------------
  // Book confirmation (confirmBookUploadHandler)
  // ---------------------------------------------------------------------

  /** The body of `POST /books`; the title is required. */
  datatype ConfirmRequest = ConfirmRequest(title: string, author: string, s3Key: string, totalPages: Int64)

  /** Store failures injected at each step of the transaction. */
  datatype TxFaults = TxFaults(begin: bool, insertBook: bool, insertProgress: bool, commit: bool)

  const NoFaults: TxFaults := TxFaults(false, false, false, false)

  /** The response status, the created book, and the tables afterwards. */
  datatype ConfirmOutcome = ConfirmOutcome(status: int, book: Option<Book>, tables: Tables)

  /** The IDs of the books stored under an object key. */
  function BooksWithKey(books: map<Uuid, Book>, key: string): set<Uuid>
  {
    set id | id in books && books[id].s3Key == key
  }

  /** Some book already uses this object key. */
  predicate KeyInUse(books: map<Uuid, Book>, key: string)
  {
    BooksWithKey(books, key) != {}
  }

  /** The book CreateBook inserts: the request's title, key and page count (as int32), the caller as owner. */
  function NewBook(id: Uuid, ownerId: string, req: ConfirmRequest): (b: Book)
    ensures b.id == id && b.ownerId == ownerId && b.s3Key == req.s3Key && b.title == req.title
    ensures b.totalPages == ToInt32(req.totalPages) && b.author.None?
  {
    Book(id, ownerId, req.s3Key, req.title, None, ToInt32(req.totalPages))
  }

  /** The progress row CreateReadingProgress inserts: page 0, 0 percent. */
  function ZeroProgress(bookId: Uuid, userId: string): (p: ReadingProgress)
    ensures p.bookId == bookId && p.userId == userId && p.currentPage == 0 && p.percentageComplete == 0.0
  {
    ReadingProgress(bookId, userId, 0, 0.0)
  }

  /**
   * `INSERT INTO books`: the primary key and the object key are unique;
   * `fault` is any other failure of the store.
   */
  function InsertBook(t: Tables, book: Book, fault: bool): (r: Result<Tables, DbError>)
    ensures r.Ok? <==> !fault && book.id !in t.books && !KeyInUse(t.books, book.s3Key)
    ensures r.Ok? ==> r.value == t.(books := t.books[book.id := book])
    ensures r == Err(UniqueViolation) <==> !fault && (book.id in t.books || KeyInUse(t.books, book.s3Key))
  {
    if fault then Err(OtherDbError)
    else if book.id in t.books || KeyInUse(t.books, book.s3Key) then Err(UniqueViolation)
    else Ok(t.(books := t.books[book.id := book]))
  }

  /**
   * `INSERT INTO reading_progress`: the (book, user) pair is unique and the
   * book must exist; `fault` is any other failure of the store.
   */
  function InsertProgress(t: Tables, row: ReadingProgress, fault: bool): (r: Result<Tables, DbError>)
    ensures r.Ok? <==> !fault && ProgressKey(row.bookId, row.userId) !in t.progress && row.bookId in t.books
    ensures r.Ok? ==> r.value == t.(progress := t.progress[ProgressKey(row.bookId, row.userId) := row])
  {
    var key := ProgressKey(row.bookId, row.userId);
    if fault then Err(OtherDbError)
    else if key in t.progress then Err(UniqueViolation)
    else if row.bookId !in t.books then Err(OtherDbError)
    else Ok(t.(progress := t.progress[key := row]))
  }

  /** The request gets as far as opening the transaction. */
  predicate OpensTransaction(ctxValues: map<string, CtxValue>, req: ConfirmRequest, storedKeys: set<string>, faults: TxFaults)
  {
    GetDBUserFromRequest(ctxValues).Ok? && req.title != "" && req.s3Key in storedKeys && !faults.begin
  }

  /**
   * confirmBookUploadHandler: after the caller and the body are read, the
   * object must exist in storage (`storedKeys`); then, in one transaction,
   * the book is inserted under `newId` (uuid.New), then its progress row,
   * then the transaction commits. Any failure leaves both tables as they were.
   */
  function Confirm(t: Tables, ctxValues: map<string, CtxValue>, req: ConfirmRequest, storedKeys: set<string>,
                   newId: Uuid, faults: TxFaults): (out: ConfirmOutcome)
    // all or nothing
    ensures out.status != StatusOK ==> out.tables == t && out.book.None?
    ensures out.status == StatusOK ==>
      && OpensTransaction(ctxValues, req, storedKeys, faults)
      && var owner := GetDBUserFromRequest(ctxValues).value.id;
         && out.book == Some(NewBook(newId, owner, req))
         && newId !in t.books && !KeyInUse(t.books, req.s3Key)
         && out.tables.books == t.books[newId := out.book.value]
         && out.tables.progress == t.progress[ProgressKey(newId, owner) := ZeroProgress(newId, owner)]
    // the checks before the transaction
    ensures GetDBUserFromRequest(ctxValues).Err? ==> out.status == StatusInternalServerError
    ensures GetDBUserFromRequest(ctxValues).Ok? && req.title == "" ==> out.status == StatusBadRequest
    ensures GetDBUserFromRequest(ctxValues).Ok? && req.title != "" && req.s3Key !in storedKeys ==> out.status == StatusBadRequest
    ensures GetDBUserFromRequest(ctxValues).Ok? && req.title != "" && req.s3Key in storedKeys && faults.begin
      ==> out.status == StatusInternalServerError
    // the steps inside it
    ensures OpensTransaction(ctxValues, req, storedKeys, faults) && !faults.insertBook && KeyInUse(t.books, req.s3Key)
      ==> out.status == StatusConflict
    ensures OpensTransaction(ctxValues, req, storedKeys, faults) && !faults.insertBook && newId in t.books
      ==> out.status == StatusConflict
    ensures OpensTransaction(ctxValues, req, storedKeys, faults) && faults.insertBook
      ==> out.status == StatusInternalServerError
    ensures OpensTransaction(ctxValues, req, storedKeys, faults) && !faults.insertBook
            && newId !in t.books && !KeyInUse(t.books, req.s3Key) && faults.insertProgress
      ==> out.status == StatusConflict
    ensures OpensTransaction(ctxValues, req, storedKeys, faults) && !faults.insertBook
            && newId !in t.books && !KeyInUse(t.books, req.s3Key) && !faults.insertProgress && faults.commit
            && TablesValid(t)
      ==> out.status == StatusInternalServerError
    ensures OpensTransaction(ctxValues, req, storedKeys, faults) && !faults.insertBook && !faults.insertProgress && !faults.commit
            && newId !in t.books && !KeyInUse(t.books, req.s3Key) && TablesValid(t)
      ==> out.status == StatusOK
    ensures out.status in {StatusOK, StatusBadRequest, StatusConflict, StatusInternalServerError}
  {
    match GetDBUserFromRequest(ctxValues)
    case Err(_) => ConfirmOutcome(StatusInternalServerError, None, t)
    case Ok(dbUser) =>
      if req.title == "" then ConfirmOutcome(StatusBadRequest, None, t)
      else if req.s3Key !in storedKeys then ConfirmOutcome(StatusBadRequest, None, t)
      else if faults.begin then ConfirmOutcome(StatusInternalServerError, None, t)
      else
        var book := NewBook(newId, dbUser.id, req);
        match InsertBook(t, book, faults.insertBook)
        case Err(UniqueViolation) => ConfirmOutcome(StatusConflict, None, t)
        case Err(OtherDbError) => ConfirmOutcome(StatusInternalServerError, None, t)
        case Ok(withBook) =>
          match InsertProgress(withBook, ZeroProgress(book.id, dbUser.id), faults.insertProgress)
          case Err(_) => ConfirmOutcome(StatusConflict, None, t)
          case Ok(withProgress) =>
            if faults.commit then ConfirmOutcome(StatusInternalServerError, None, t)
            else ConfirmOutcome(StatusOK, Some(book), withProgress)
  }

  /** A confirmation keeps the store's invariant, and a successful one adds exactly one book. */
  lemma ConfirmPreservesValid(t: Tables, ctxValues: map<string, CtxValue>, req: ConfirmRequest, storedKeys: set<string>,
                              newId: Uuid, faults: TxFaults)
    requires TablesValid(t)
    ensures var out := Confirm(t, ctxValues, req, storedKeys, newId, faults);
      && TablesValid(out.tables)
      && |out.tables.books| == if out.status == StatusOK then |t.books| + 1 else |t.books|
  {
    var out := Confirm(t, ctxValues, req, storedKeys, newId, faults);
    if out.status == StatusOK {
      var owner := GetDBUserFromRequest(ctxValues).value.id;
      var book := out.book.value;
      var u := out.tables;
      forall i, j | i in u.books && j in u.books && i != j ensures u.books[i].s3Key != u.books[j].s3Key {
        if i == newId {
          assert u.books[j] == t.books[j] && j !in BooksWithKey(t.books, req.s3Key);
        } else if j == newId {
          assert u.books[i] == t.books[i] && i !in BooksWithKey(t.books, req.s3Key);
        }
      }
      forall k | k in u.progress
        ensures k.bookId in u.books && k.userId == u.books[k.bookId].ownerId
        ensures u.progress[k].bookId == k.bookId && u.progress[k].userId == k.userId
      {
        if k != ProgressKey(newId, owner) {
          assert k in t.progress;
        }
      }
    }
  }

  /**
   * Confirming the same object key a second time, after a first
   * confirmation went through, is a conflict that changes nothing: exactly
   * one book holds the key afterwards.
   */
  lemma ConfirmSameKeyTwice(t: Tables, ctxValues: map<string, CtxValue>, req: ConfirmRequest, again: ConfirmRequest,
                            storedKeys: set<string>, firstId: Uuid, secondId: Uuid, faults: TxFaults)
    requires TablesValid(t)
    requires Confirm(t, ctxValues, req, storedKeys, firstId, NoFaults).status == StatusOK
    requires again.s3Key == req.s3Key && again.title != "" && !faults.begin && !faults.insertBook
    ensures var first := Confirm(t, ctxValues, req, storedKeys, firstId, NoFaults);
      var second := Confirm(first.tables, ctxValues, again, storedKeys, secondId, faults);
      && second.status == StatusConflict
      && second.tables == first.tables
      && BooksWithKey(second.tables.books, req.s3Key) == {firstId}
      && |BooksWithKey(second.tables.books, req.s3Key)| == 1
  {
    var first := Confirm(t, ctxValues, req, storedKeys, firstId, NoFaults);
    var books := first.tables.books;
    assert books[firstId].s3Key == req.s3Key;
    assert firstId in BooksWithKey(books, again.s3Key);
    assert !KeyInUse(t.books, req.s3Key);
    forall id | id in books && id != firstId ensures books[id].s3Key != req.s3Key {
      assert id in t.books && books[id] == t.books[id] && id !in BooksWithKey(t.books, req.s3Key);
    }
  }

  // ---------------------------------------------------------------------
  // Reading a book (getBookHandler)
  // ---------------------------------------------------------------------

  datatype GetBookResponse = GetBookFailed(status: int) | GetBookOk(book: Book, readUrl: string)

  /**
   * getBookHandler. `parseUuid` is uuid.Parse, `lookupFault` a store
   * failure other than "no rows", and `signRead` the signing of a read URL
   * for an object key.
   */
  function GetBook(books: map<Uuid, Book>, ctxValues: map<string, CtxValue>, bookIdText: string,
                   parseUuid: string -> Option<Uuid>, lookupFault: bool,
                   signRead: string -> Option<string>): (r: GetBookResponse)
    // the decision order: caller, then a valid UUID, then the lookup, then ownership
    ensures GetDBUserFromRequest(ctxValues).Err? ==> r == GetBookFailed(StatusInternalServerError)
    ensures GetDBUserFromRequest(ctxValues).Ok? && parseUuid(bookIdText).None?
      ==> r == GetBookFailed(StatusUnprocessableEntity)
    ensures GetDBUserFromRequest(ctxValues).Ok? && parseUuid(bookIdText).Some? && lookupFault
      ==> r == GetBookFailed(StatusInternalServerError)
    ensures GetDBUserFromRequest(ctxValues).Ok? && parseUuid(bookIdText).Some? && !lookupFault
            && parseUuid(bookIdText).value !in books
      ==> r == GetBookFailed(StatusNotFound)
    ensures GetDBUserFromRequest(ctxValues).Ok? && parseUuid(bookIdText).Some? && !lookupFault
            && parseUuid(bookIdText).value in books
            && books[parseUuid(bookIdText).value].ownerId != GetDBUserFromRequest(ctxValues).value.id
      ==> r == GetBookFailed(StatusForbidden)
    // a failed signing of the owner's read URL is a server error
    ensures GetDBUserFromRequest(ctxValues).Ok? && parseUuid(bookIdText).Some? && !lookupFault
            && parseUuid(bookIdText).value in books
            && books[parseUuid(bookIdText).value].ownerId == GetDBUserFromRequest(ctxValues).value.id
            && signRead(books[parseUuid(bookIdText).value].s3Key).None?
      ==> r == GetBookFailed(StatusInternalServerError)
    // a read URL is issued only to the owner, for the book's own object key
    ensures r.GetBookOk? <==>
      && GetDBUserFromRequest(ctxValues).Ok? && parseUuid(bookIdText).Some? && !lookupFault
      && parseUuid(bookIdText).value in books
      && books[parseUuid(bookIdText).value].ownerId == GetDBUserFromRequest(ctxValues).value.id
      && signRead(books[parseUuid(bookIdText).value].s3Key).Some?
    ensures r.GetBookOk? ==>
      && r.book == books[parseUuid(bookIdText).value]
      && r.book.ownerId == GetDBUserFromRequest(ctxValues).value.id
      && Some(r.readUrl) == signRead(r.book.s3Key)
  {
    match GetDBUserFromRequest(ctxValues)
    case Err(_) => GetBookFailed(StatusInternalServerError)
    case Ok(dbUser) =>
      match parseUuid(bookIdText)
      case None => GetBookFailed(StatusUnprocessableEntity)
      case Some(id) =>
        match GetByKey(books, id, lookupFault)
        case NoRows => GetBookFailed(StatusNotFound)
        case OtherError => GetBookFailed(StatusInternalServerError)
        case Found(book) =>
          if book.ownerId != dbUser.id then GetBookFailed(StatusForbidden)
          else match signRead(book.s3Key)
            case None => GetBookFailed(StatusInternalServerError)
            case Some(url) => GetBookOk(book, url)
  }

  // ---------------------------------------------------------------------
  // Reading progress (updateReadingProgressHandler)
  // ---------------------------------------------------------------------

  /**
   * The completion percentage: 0 for a book without pages, otherwise the
   * page over the total, times 100, with no clamping.
   */
  function PercentageComplete(currentPage: int, totalPages: int): (p: real)
    ensures totalPages < 1 ==> p == 0.0
    ensures totalPages >= 1 ==> p * (totalPages as real) == (currentPage as real) * 100.0
  {
    if totalPages < 1 then 0.0 else (currentPage as real) / (totalPages as real) * 100.0
  }

  /** The examples: no pages gives 0, page 50 of 200 gives 25. */
  lemma PercentageExamples()
    ensures PercentageComplete(50, 0) == 0.0
    ensures PercentageComplete(50, 200) == 25.0
  {
  }

  /** Between the first and the last page the percentage is between 0 and 100; past the last it exceeds 100. */
  lemma PercentageBounds(currentPage: int, totalPages: int)
    requires totalPages >= 1
    ensures 0 <= currentPage <= totalPages ==> 0.0 <= PercentageComplete(currentPage, totalPages) <= 100.0
    ensures currentPage > totalPages ==> PercentageComplete(currentPage, totalPages) > 100.0
  {
    var p := PercentageComplete(currentPage, totalPages);
    var total := totalPages as real;
    assert p * total == (currentPage as real) * 100.0;
    if 0 <= currentPage <= totalPages {
      assert 0.0 <= p * total <= 100.0 * total;
    }
    if currentPage > totalPages {
      assert p * total > 100.0 * total;
    }
  }

  /** The body of `PATCH /books/{book_id}/reading-progress`; current_page is required. */
  datatype UpdateProgressRequest = UpdateProgressRequest(currentPage: Int64)

  /** The response status, the updated row, and the tables afterwards. */
  datatype UpdateOutcome = UpdateOutcome(status: int, row: Option<ReadingProgress>, tables: Tables)

  /**
   * The page count the percentage is computed from: the book's, or the zero
   * value's 0 when the lookup failed (its error is not checked).
   */
  function TotalPagesSeen(books: map<Uuid, Book>, id: Uuid, lookupFault: bool): (n: int)
    ensures !lookupFault && id in books ==> n == books[id].totalPages
    ensures lookupFault || id !in books ==> n == 0
  {
    match GetByKey(books, id, lookupFault)
    case Found(book) => book.totalPages
    case _ => 0
  }

  /**
   * updateReadingProgressHandler: sets the page and the derived percentage
   * of the row keyed by the book and the caller. `lookupFault` is a failure
   * of the book lookup, `updateFault` one of the update.
   */
  function UpdateProgress(t: Tables, ctxValues: map<string, CtxValue>, bookIdText: string, req: UpdateProgressRequest,
                          parseUuid: string -> Option<Uuid>, lookupFault: bool, updateFault: bool): (out: UpdateOutcome)
    ensures out.tables.books == t.books
    ensures out.status != StatusOK ==> out.tables == t && out.row.None?
    ensures GetDBUserFromRequest(ctxValues).Err? ==> out.status == StatusInternalServerError
    ensures GetDBUserFromRequest(ctxValues).Ok? && req.currentPage == 0 ==> out.status == StatusBadRequest
    ensures GetDBUserFromRequest(ctxValues).Ok? && req.currentPage != 0 && parseUuid(bookIdText).None?
      ==> out.status == StatusBadRequest
    ensures out.status == StatusOK <==>
      && GetDBUserFromRequest(ctxValues).Ok? && req.currentPage != 0 && parseUuid(bookIdText).Some? && !updateFault
      && ProgressKey(parseUuid(bookIdText).value, GetDBUserFromRequest(ctxValues).value.id) in t.progress
    // only the row of this book and this caller is written
    ensures out.status == StatusOK ==>
      var id := parseUuid(bookIdText).value;
      var key := ProgressKey(id, GetDBUserFromRequest(ctxValues).value.id);
      && out.row == Some(t.progress[key].(currentPage := ToInt32(req.currentPage),
                                          percentageComplete := PercentageComplete(req.currentPage, TotalPagesSeen(t.books, id, lookupFault))))
      && out.tables.progress == t.progress[key := out.row.value]
    // past the argument checks, a failed update or a missing row is a server error
    ensures GetDBUserFromRequest(ctxValues).Ok? && req.currentPage != 0 && parseUuid(bookIdText).Some?
            && out.status != StatusOK
      ==> out.status == StatusInternalServerError
    ensures out.status in {StatusOK, StatusBadRequest, StatusInternalServerError}
  {
    match GetDBUserFromRequest(ctxValues)
    case Err(_) => UpdateOutcome(StatusInternalServerError, None, t)
    case Ok(dbUser) =>
      if req.currentPage == 0 then UpdateOutcome(StatusBadRequest, None, t)
      else match parseUuid(bookIdText)
        case None => UpdateOutcome(StatusBadRequest, None, t)
        case Some(id) =>
          var percentage := PercentageComplete(req.currentPage, TotalPagesSeen(t.books, id, lookupFault));
          var key := ProgressKey(id, dbUser.id);
          if updateFault || key !in t.progress then UpdateOutcome(StatusInternalServerError, None, t)
          else
            var row := t.progress[key].(currentPage := ToInt32(req.currentPage), percentageComplete := percentage);
            UpdateOutcome(StatusOK, Some(row), t.(progress := t.progress[key := row]))
  }

  /**
   * An update keeps the store's invariant, and only the book's owner can
   * update: progress rows exist only for owners.
   */
  lemma UpdatePreservesValid(t: Tables, ctxValues: map<string, CtxValue>, bookIdText: string, req: UpdateProgressRequest,
                             parseUuid: string -> Option<Uuid>, lookupFault: bool, updateFault: bool)
    requires TablesValid(t)
    ensures var out := UpdateProgress(t, ctxValues, bookIdText, req, parseUuid, lookupFault, updateFault);
      && TablesValid(out.tables)
      && (out.status == StatusOK ==>
            && parseUuid(bookIdText).value in t.books
            && t.books[parseUuid(bookIdText).value].ownerId == GetDBUserFromRequest(ctxValues).value.id
            && out.row.value.percentageComplete
               == PercentageComplete(req.currentPage, if lookupFault then 0 else t.books[parseUuid(bookIdText).value].totalPages))
  {
  }

  // ---------------------------------------------------------------------
  // The store
  // ---------------------------------------------------------------------

  /** The `books` and `reading_progress` tables, written in place by the handlers. */
  class BookStore {
    var books: map<Uuid, Book>
    var progress: map<ProgressKey, ReadingProgress>

    function State(): Tables
      reads this
    {
      Tables(books, progress)
    }

    ghost predicate Valid()
      reads this
    {
      TablesValid(State())
    }

    constructor ()
      ensures Valid() && books == map[] && progress == map[]
    {
      books := map[];
      progress := map[];
    }

    /**
     * confirmBookUploadHandler. The transaction writes into the tables; the
     * deferred rollback puts the snapshot taken at Begin back unless the
     * commit went through.
     */
    method ConfirmBookUpload(ctxValues: map<string, CtxValue>, req: ConfirmRequest, storedKeys: set<string>,
                             newId: Uuid, faults: TxFaults)
      returns (status: int, created: Option<Book>)
      requires Valid()
      modifies this
      ensures Valid()
      ensures ConfirmOutcome(status, created, State()) == Confirm(old(State()), ctxValues, req, storedKeys, newId, faults)
    {
      ConfirmPreservesValid(State(), ctxValues, req, storedKeys, newId, faults);
      var dbUser := GetDBUserFromRequest(ctxValues);
      if dbUser.Err? {
        return StatusInternalServerError, None;
      }
      if req.title == "" {
        return StatusBadRequest, None;
      }
      if req.s3Key !in storedKeys {
        return StatusBadRequest, None;
      }
      if faults.begin {
        return StatusInternalServerError, None;
      }
      var snapshot := State();
      var book := NewBook(newId, dbUser.value.id, req);
      var withBook := InsertBook(State(), book, faults.insertBook);
      if withBook.Err? {
        status := if withBook.error == UniqueViolation then StatusConflict else StatusInternalServerError;
        return status, None;
      }
      books := withBook.value.books;
      var withProgress := InsertProgress(State(), ZeroProgress(book.id, dbUser.value.id), faults.insertProgress);
      if withProgress.Err? {
        books, progress := snapshot.books, snapshot.progress;
        return StatusConflict, None;
      }
      progress := withProgress.value.progress;
      if faults.commit {
        books, progress := snapshot.books, snapshot.progress;
        return StatusInternalServerError, None;
      }
      return StatusOK, Some(book);
    }

    /** updateReadingProgressHandler: writes the one row UpdateProgress names, in place. */
    method UpdateReadingProgress(ctxValues: map<string, CtxValue>, bookIdText: string, req: UpdateProgressRequest,
                                 parseUuid: string -> Option<Uuid>, lookupFault: bool, updateFault: bool)
      returns (status: int, row: Option<ReadingProgress>)
      requires Valid()
      modifies this
      ensures Valid()
      ensures UpdateOutcome(status, row, State())
        == UpdateProgress(old(State()), ctxValues, bookIdText, req, parseUuid, lookupFault, updateFault)
    {
      UpdatePreservesValid(State(), ctxValues, bookIdText, req, parseUuid, lookupFault, updateFault);
      var dbUser := GetDBUserFromRequest(ctxValues);
      if dbUser.Err? {
        return StatusInternalServerError, None;
      }
      if req.currentPage == 0 {
        return StatusBadRequest, None;
      }
      var id := parseUuid(bookIdText);
      if id.None? {
        return StatusBadRequest, None;
      }
      var found := GetByKey(books, id.value, lookupFault);
      var totalPages := if found.Found? then found.row.totalPages else 0;
      var percentage := PercentageComplete(req.currentPage, totalPages);
      var key := ProgressKey(id.value, dbUser.value.id);
      if updateFault || key !in progress {
        return StatusInternalServerError, None;
      }
      var updated := progress[key].(currentPage := ToInt32(req.currentPage), percentageComplete := percentage);
      progress := progress[key := updated];
      return StatusOK, Some(updated);
    }
  }
}
