/**
 * The `urls` table of the URL shortener and its one writer in the service
 * layer, createShortUrl. The table is an in-memory sequence of rows in
 * table order; the identifier the database assigns to a new row is a
 * parameter that no existing row carries.
 */
module UrlService {

  /** A row of `urls`. */
  datatype Url = Url(id: string, shortCode: string, targetURL: string, userId: string)

  /** The `returning` projection of an inserted row. */
  datatype Created = Created(id: string, shortCode: string, targetURL: string)

  function Projection(row: Url): Created
  {
    Created(row.id, row.shortCode, row.targetURL)
  }

  /** No two different rows share an id (the primary key). */
  predicate IdsUnique(rows: seq<Url>)
  {
    forall a, b :: a in rows && b in rows && a.id == b.id ==> a == b
  }

  /** No row carries `id`. */
  predicate IdUnused(rows: seq<Url>, id: string)
  {
    forall row :: row in rows ==> row.id != id
  }

  class UrlTable {
    var rows: seq<Url>

    ghost predicate Valid()
      reads this
    {
      IdsUnique(rows)
    }

    constructor ()
      ensures Valid() && rows == []
    {
      rows := [];
    }

    /**
     * createShortUrl: insert one row with the given code, target and owner
     * under the id `newId` the database assigns; every earlier row stays as
     * it was, and the result is the new row's projection.
     */
    method CreateShortUrl(shortCode: string, url: string, userId: string, newId: string) returns (result: Created)
      requires Valid()
      requires IdUnused(rows, newId)
      modifies this
      ensures Valid()
      ensures rows == old(rows) + [Url(newId, shortCode, url, userId)]
      ensures result == Projection(rows[|rows| - 1])
      ensures result.id == newId && result.shortCode == shortCode && result.targetURL == url
    {
      var row := Url(newId, shortCode, url, userId);
      rows := rows + [row];
      result := Projection(row);
    }
  }
}
