/**
 * The URL shortener's routes: POST /shorten, GET /codes, DELETE /:id and
 * GET /:shortCode. The read-only routes are functions of the table's rows;
 * the two that write are methods on the table. The caller's identity is
 * what the authentication middleware put in `req.user.id`.
 */
module UrlRoutes {
  import opened Wrappers
  import opened UrlService

  /** The parsed body of POST /shorten. */
  datatype ShortenBody = ShortenBody(url: string, code: Option<string>)

  /** POST /shorten answers 400 with the validation error or 201 with the new row's projection. */
  datatype ShortenReply = BadRequest | CreatedReply(created: Created)

  /** GET /:shortCode answers 404 or redirects. */
  datatype ResolveReply = NotFound | Redirect(targetURL: string)

  /** The length nanoid is asked for. */
  const GeneratedCodeLength: nat := 6

  /** nanoid's URL-safe alphabet. */
  predicate IsNanoIdChar(c: char)
  {
    'A' <= c <= 'Z' || 'a' <= c <= 'z' || '0' <= c <= '9' || c == '_' || c == '-'
  }

  /** What `nanoid(6)` returns. */
  predicate IsGeneratedCode(s: string)
  {
    |s| == GeneratedCodeLength && forall i :: 0 <= i < |s| ==> IsNanoIdChar(s[i])
  }

  /**
   * `code ?? nanoid(6)`: the caller's code verbatim whenever the field is
   * there (the empty string included), otherwise the generated code.
   */
  function ChooseCode(code: Option<string>, generated: string): (c: string)
    ensures code.Some? ==> c == code.value
    ensures code.None? && IsGeneratedCode(generated) ==> IsGeneratedCode(c) && c == generated
  {
    match code
    case Some(given) => given
    case None => generated
  }

  /**
   * POST /shorten. A body the schema `accepts` refuses is answered 400 and
   * the table does not change. Otherwise one row with the chosen code, the
   * body's url and the caller as owner is appended, the answer carries that
   * row's id, code and target, and the chosen code now resolves.
   */
  method Shorten(t: UrlTable, body: ShortenBody, accepts: ShortenBody -> bool,
                 generated: string, caller: string, newId: string) returns (reply: ShortenReply)
    requires t.Valid()
    requires IsGeneratedCode(generated)
    requires IdUnused(t.rows, newId)
    modifies t
    ensures t.Valid()
    ensures !accepts(body) ==> reply == BadRequest && t.rows == old(t.rows)
    ensures accepts(body) ==>
      var row := Url(newId, ChooseCode(body.code, generated), body.url, caller);
      && t.rows == old(t.rows) + [row]
      && reply == CreatedReply(Projection(row))
      && Resolve(t.rows, row.shortCode).Redirect?
  {
    if !accepts(body) {
      return BadRequest;
    }
    var shortCode := ChooseCode(body.code, generated);
    ghost var before := t.rows;
    var result := t.CreateShortUrl(shortCode, body.url, caller, newId);
    ResolveAfterInsert(before, Url(newId, shortCode, body.url, caller));
    reply := CreatedReply(result);
  }

  /** GET /codes: the caller's rows, in table order. */
  function Codes(rows: seq<Url>, caller: string): (r: seq<Url>)
    ensures forall row :: row in r <==> row in rows && row.userId == caller
    ensures |r| <= |rows|
  {
    if rows == [] then []
    else (if rows[0].userId == caller then [rows[0]] else []) + Codes(rows[1..], caller)
  }

  /** Listing keeps table order: the listing of a concatenation is the concatenation of the listings. */
  lemma {:induction false} CodesAppend(a: seq<Url>, b: seq<Url>, caller: string)
    ensures Codes(a + b, caller) == Codes(a, caller) + Codes(b, caller)
  {
    if a == [] {
      assert a + b == b;
    } else {
      assert (a + b)[1..] == a[1..] + b;
      CodesAppend(a[1..], b, caller);
    }
  }

  /** After the caller shortens a URL, their listing is the old one followed by the new row. */
  lemma ShortenExtendsCodes(rows: seq<Url>, row: Url)
    ensures Codes(rows + [row], row.userId) == Codes(rows, row.userId) + [row]
  {
    CodesAppend(rows, [row], row.userId);
    assert [row][1..] == [];
  }

  /** The row the delete's where clause selects: this id, owned by the caller. */
  predicate Targeted(row: Url, id: string, caller: string)
  {
    row.id == id && row.userId == caller
  }

  /** The table after `DELETE ... WHERE id = id AND userId = caller`. */
  function DeleteOwned(rows: seq<Url>, id: string, caller: string): (r: seq<Url>)
    ensures forall row :: row in r <==> row in rows && !Targeted(row, id, caller)
    ensures (forall row :: row in rows ==> !Targeted(row, id, caller)) ==> r == rows
    ensures |r| <= |rows|
  {
    if rows == [] then []
    else (if Targeted(rows[0], id, caller) then [] else [rows[0]]) + DeleteOwned(rows[1..], id, caller)
  }

  /**
   * DELETE /:id removes exactly the caller's row with that id, keeps every
   * other row, and always answers `{deleted: true}`.
   */
  method DeleteUrl(t: UrlTable, id: string, caller: string) returns (deleted: bool)
    requires t.Valid()
    modifies t
    ensures t.Valid()
    ensures t.rows == DeleteOwned(old(t.rows), id, caller)
    ensures deleted
  {
    t.rows := DeleteOwned(t.rows, id, caller);
    deleted := true;
  }

  /** A delete by someone who owns no row with that id, or of an absent id, changes nothing, so every code still resolves as before. */
  lemma DeleteByNonOwnerKeepsResolve(rows: seq<Url>, id: string, caller: string, code: string)
    requires forall row :: row in rows && row.id == id ==> row.userId != caller
    ensures DeleteOwned(rows, id, caller) == rows
    ensures Resolve(DeleteOwned(rows, id, caller), code) == Resolve(rows, code)
  {
  }

  /** GET /:shortCode: 404 when no row has the code, otherwise a redirect to the target of a row that has it. */
  function Resolve(rows: seq<Url>, code: string): (r: ResolveReply)
    ensures r == NotFound <==> forall row :: row in rows ==> row.shortCode != code
    ensures r.Redirect? ==> exists row :: row in rows && row.shortCode == code && row.targetURL == r.targetURL
  {
    if rows == [] then NotFound
    else if rows[0].shortCode == code then Redirect(rows[0].targetURL)
    else Resolve(rows[1..], code)
  }

  /** When only one row has the code, resolving it redirects to that row's target. */
  lemma ResolveUnique(rows: seq<Url>, row: Url)
    requires row in rows
    requires forall other :: other in rows && other.shortCode == row.shortCode ==> other == row
    ensures Resolve(rows, row.shortCode) == Redirect(row.targetURL)
  {
  }

  /**
   * Shortening then resolving: after a row is appended its code resolves,
   * and to the row's own target when no earlier row had the code.
   */
  lemma ResolveAfterInsert(rows: seq<Url>, row: Url)
    ensures Resolve(rows + [row], row.shortCode).Redirect?
    ensures (forall other :: other in rows ==> other.shortCode != row.shortCode) ==>
      Resolve(rows + [row], row.shortCode) == Redirect(row.targetURL)
  {
  }
}
