/** TokenBlacklistService: the append-only table of revoked session tokens. */
module TokenBlacklist {
  import opened Common

  /** One blacklistedToken row; `expiresAt` is a time in milliseconds. */
  datatype Row = Row(token: string, expiresAt: int)

  /** findFirst on the token column: the position of the first row holding
      `token`, scanning the table in order. */
  function FindFirst(rows: seq<Row>, token: string): (r: Option<nat>)
    ensures r.Some? ==> r.value < |rows| && rows[r.value].token == token
    ensures r.Some? ==> forall j :: 0 <= j < r.value ==> rows[j].token != token
    ensures r.None? ==> forall j :: 0 <= j < |rows| ==> rows[j].token != token
  {
    if rows == [] then None
    else if rows[0].token == token then Some(0)
    else match FindFirst(rows[1..], token)
      case None => None
      case Some(i) => Some(i + 1)
  }

  /** Some row of `rows` holds `token`, whatever its expiry. */
  ghost predicate Listed(rows: seq<Row>, token: string) {
    exists i :: 0 <= i < |rows| && rows[i].token == token
  }

  class TokenBlacklistService {
    var rows: seq<Row>

    constructor ()
      ensures rows == []
    {
      rows := [];
    }

    /** Inserts one row; an already listed token gets a second row. */
    method AddToBlacklist(token: string, expiresAt: int)
      modifies this
      ensures rows == old(rows) + [Row(token, expiresAt)]
      ensures IsBlacklisted(token)
    {
      rows := rows + [Row(token, expiresAt)];
      assert rows[|rows| - 1].token == token;
    }

    /** Whether some row holds `token`; `expiresAt` is never consulted. */
    function IsBlacklisted(token: string): (b: bool)
      reads this
      ensures b <==> Listed(rows, token)
    {
      FindFirst(rows, token).Some?
    }
  }

  /** Appending rows never takes a token off the list: once revoked, a
      token stays revoked. */
  lemma ListedStaysListed(rows: seq<Row>, more: seq<Row>, token: string)
    requires Listed(rows, token)
    ensures Listed(rows + more, token)
  {
    var i :| 0 <= i < |rows| && rows[i].token == token;
    assert (rows + more)[i] == rows[i];
  }
}
