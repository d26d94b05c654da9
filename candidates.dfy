/** Grouping of the route table by exchange-pair key and lookup of one key's candidate paths. */
module Candidates {
  import opened Wrappers
  import opened Model

  /** The paths of the rows whose exchange key is `exchange`, in table order. */
  function PathsFor(rows: seq<Route>, exchange: string): (r: seq<string>)
    ensures |r| <= |rows|
  {
    if rows == [] then []
    else (if rows[0].exchange == exchange then [rows[0].path] else []) + PathsFor(rows[1..], exchange)
  }

  /** Grouping distributes over splitting the table in two. */
  lemma {:induction false} PathsForAppend(a: seq<Route>, b: seq<Route>, exchange: string)
    ensures PathsFor(a + b, exchange) == PathsFor(a, exchange) + PathsFor(b, exchange)
  {
    if a == [] {
      assert a + b == b;
    } else {
      var head := if a[0].exchange == exchange then [a[0].path] else [];
      assert (a + b)[0] == a[0] && (a + b)[1..] == a[1..] + b;
      assert PathsFor(a + b, exchange) == head + PathsFor(a[1..] + b, exchange);
      PathsForAppend(a[1..], b, exchange);
    }
  }

  /** A path is listed for a key exactly when some row with that key carries it. */
  lemma {:induction false} PathsForMembers(rows: seq<Route>, exchange: string, p: string)
    ensures p in PathsFor(rows, exchange) <==> exists i :: 0 <= i < |rows| && rows[i].exchange == exchange && rows[i].path == p
  {
    if rows != [] {
      PathsForMembers(rows[1..], exchange, p);
      if p !in PathsFor(rows, exchange) {
        assert !(rows[0].exchange == exchange && rows[0].path == p);
        forall i | 1 <= i < |rows| ensures !(rows[i].exchange == exchange && rows[i].path == p) {
          assert rows[1..][i - 1] == rows[i];
        }
      } else if p !in PathsFor(rows[1..], exchange) {
        assert rows[0].exchange == exchange && rows[0].path == p;
      } else {
        var i :| 0 <= i < |rows[1..]| && rows[1..][i].exchange == exchange && rows[1..][i].path == p;
        assert rows[i + 1] == rows[1..][i];
      }
    }
  }

  /** A key has no paths exactly when no row has that key. */
  lemma {:induction false} PathsForEmpty(rows: seq<Route>, exchange: string)
    ensures PathsFor(rows, exchange) == [] <==> forall i :: 0 <= i < |rows| ==> rows[i].exchange != exchange
  {
    if rows != [] {
      PathsForEmpty(rows[1..], exchange);
      if rows[0].exchange != exchange {
        forall i | 1 <= i < |rows| ensures rows[i].exchange == rows[1..][i - 1].exchange { }
      }
    }
  }

  /** One more row of the table appends its path to the list of its own key only. */
  lemma PathsForExtend(rows: seq<Route>, n: nat, exchange: string)
    requires n < |rows|
    ensures PathsFor(rows[..n + 1], exchange)
         == PathsFor(rows[..n], exchange) + (if rows[n].exchange == exchange then [rows[n].path] else [])
  {
    assert rows[..n + 1] == rows[..n] + [rows[n]];
    PathsForAppend(rows[..n], [rows[n]], exchange);
    assert PathsFor([rows[n]], exchange) == (if rows[n].exchange == exchange then [rows[n].path] else []) + PathsFor([], exchange);
  }

  /** What the grouped table gives for one key: its paths, or None when the key was never seen. */
  function Lookup(rows: seq<Route>, exchange: string): (r: Option<seq<string>>)
    ensures r != Some([])
  {
    if PathsFor(rows, exchange) == [] then None else Some(PathsFor(rows, exchange))
  }

  /**
   * The source's loop: every row's path is appended to the list of its
   * exchange key; then the list for the key of (source, destination) is
   * returned, or None when no row carries that key.
   */
  method GetRoute(route: seq<Route>, source: string, destination: string, exchangeKey: (string, string) -> string)
    returns (r: Option<seq<string>>)
    ensures r.None? <==> forall i :: 0 <= i < |route| ==> route[i].exchange != exchangeKey(source, destination)
    ensures r.Some? ==> r.value == PathsFor(route, exchangeKey(source, destination)) && r.value != []
    ensures r == Lookup(route, exchangeKey(source, destination))
  {
    var resultMap: map<string, seq<string>> := map[];
    var n := 0;
    while n < |route|
      invariant 0 <= n <= |route|
      invariant forall k :: k in resultMap <==> PathsFor(route[..n], k) != []
      invariant forall k :: k in resultMap ==> resultMap[k] == PathsFor(route[..n], k)
    {
      var exchange := route[n].exchange;
      var path := route[n].path;
      var list := if exchange in resultMap then resultMap[exchange] else [];
      var grown := resultMap[exchange := list + [path]];
      forall k
        ensures k in grown <==> PathsFor(route[..n + 1], k) != []
        ensures k in grown ==> grown[k] == PathsFor(route[..n + 1], k)
      {
        PathsForExtend(route, n, k);
      }
      resultMap := grown;
      n := n + 1;
    }
    assert route[..n] == route;
    var key := exchangeKey(source, destination);
    PathsForEmpty(route, key);
    r := if key in resultMap then Some(resultMap[key]) else None;
  }

  /** With a symmetric key function the candidates do not depend on which party is the source. */
  lemma LookupSymmetric(rows: seq<Route>, a: string, b: string, exchangeKey: (string, string) -> string)
    requires forall x, y :: exchangeKey(x, y) == exchangeKey(y, x)
    ensures Lookup(rows, exchangeKey(a, b)) == Lookup(rows, exchangeKey(b, a))
  {
  }
}
