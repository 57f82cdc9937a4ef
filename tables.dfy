/** Rows of an in-memory table keyed by primary key, and the queries the fake
    repositories answer with. */
module Tables {

  /** The error a lookup by primary key reports when no row has that key. */
  const RecordNotFound := "record not found"

  /** The rows whose key is below `n`: what an unconditioned `Find` on the table
      returns. Every such row is listed, and nothing else. The model chooses ascending
      key order; a query without an order clause fixes none. */
  function Listing<T(==)>(rows: map<nat, T>, n: nat): (s: seq<T>)
    ensures |s| <= n
    ensures forall i :: 0 <= i < |s| ==> s[i] in rows.Values
    ensures forall k | k in rows && k < n :: rows[k] in s
  {
    if n == 0 then []
    else Listing(rows, n - 1) + (if n - 1 in rows then [rows[n - 1]] else [])
  }

  /** The elements of `s` that satisfy `p`, in their order in `s`: a `Where` clause. */
  function Select<T>(s: seq<T>, p: T -> bool): (r: seq<T>)
    ensures |r| <= |s|
    ensures forall i :: 0 <= i < |r| ==> p(r[i]) && r[i] in s
    ensures forall i :: 0 <= i < |s| && p(s[i]) ==> s[i] in r
  {
    if s == [] then []
    else (if p(s[0]) then [s[0]] else []) + Select(s[1..], p)
  }

  /** Selecting from a concatenation selects from each part in turn: the selection
      keeps the order of `s`. */
  lemma {:induction false} SelectAppend<T>(a: seq<T>, b: seq<T>, p: T -> bool)
    ensures Select(a + b, p) == Select(a, p) + Select(b, p)
    decreases |a|
  {
    if a == [] {
      assert a + b == b;
    } else {
      assert (a + b)[0] == a[0];
      assert (a + b)[1..] == a[1..] + b;
      SelectAppend(a[1..], b, p);
    }
  }
}
