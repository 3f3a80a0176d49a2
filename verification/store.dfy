/** The store as the rest of the model sees it: the rows a statement
    returns, or the error it raised, and what happens to the open transaction. */
module Store {

  /** Outcome of `cursor.execute(...)` followed by `cursor.fetchall()`. */
  datatype Fetch<T> = Fetched(rows: T) | Failed(message: string)

  /** What an operation leaves the connection's open transaction in. */
  datatype Txn = Kept | RolledBack

  /** The rows a `LIMIT n` clause lets through, from an already ordered result. */
  function Limit<T>(rows: seq<T>, n: nat): (r: seq<T>)
    ensures r <= rows
    ensures |r| == if |rows| < n then |rows| else n
  {
    if |rows| < n then rows else rows[..n]
  }
}
