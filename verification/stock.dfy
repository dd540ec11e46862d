/**
 * The product catalog of the stock page: a single ordered list of
 * `{nombre, precio, cantidad}` records, kept in memory, copied to the
 * browser's local storage after each change and shown as a table with the
 * total inventory value under it.
 *
 * Pure parts (the total, the name filter, the removal performed by
 * `splice(index, 1)`) are functions on sequences; the page itself, whose
 * handlers update the list, the stored copy and what is shown, is the class
 * `Inventory`.
 */
module Stock {
  import opened Text

  datatype Option<T> = None | Some(value: T)

  /** One product record. Prices and quantities are exact numbers here. */
  datatype Product = Product(nombre: string, precio: real, cantidad: int)

  /** One table row: the record it shows and the index its delete button passes. */
  datatype Row = Row(product: Product, target: int)

  // ---------------------------------------------------------------------------
  // Total inventory value

  /** What one record contributes to the total: price times quantity. */
  function Value(p: Product): (v: real)
    ensures p.precio == 0.0 || p.cantidad == 0 ==> v == 0.0
  {
    p.precio * p.cantidad as real
  }

  /** `reduce((sum, p) => sum + p.precio * p.cantidad, 0)`: a left fold from 0. */
  function Total(ps: seq<Product>): (t: real)
    ensures ps == [] ==> t == 0.0
    ensures (forall i :: 0 <= i < |ps| ==> Value(ps[i]) >= 0.0) ==> t >= 0.0
  {
    if ps == [] then 0.0 else Total(ps[..|ps| - 1]) + Value(ps[|ps| - 1])
  }

  /** Appending a record raises the total by exactly that record's value. */
  lemma TotalAppend(ps: seq<Product>, p: Product)
    ensures Total(ps + [p]) == Total(ps) + Value(p)
  {
    assert (ps + [p])[..|ps|] == ps;
  }

  /** The total of a concatenation is the sum of the totals. */
  lemma {:induction false} TotalConcat(a: seq<Product>, b: seq<Product>)
    ensures Total(a + b) == Total(a) + Total(b)
    decreases |b|
  {
    if b == [] {
      assert a + b == a;
    } else {
      var b' := b[..|b| - 1];
      TotalConcat(a, b');
      assert (a + b)[..|a + b| - 1] == a + b';
    }
  }

  /** Taking a record out from between two lists lowers the total by its value. */
  lemma TotalSplit(front: seq<Product>, p: Product, back: seq<Product>)
    ensures Total(front + back) == Total(front + [p] + back) - Value(p)
  {
    TotalConcat(front + [p], back);
    TotalAppend(front, p);
    TotalConcat(front, back);
  }

  /** Removing the record at `k` lowers the total by exactly that record's value. */
  lemma TotalRemove(ps: seq<Product>, k: nat)
    requires k < |ps|
    ensures Total(ps[..k] + ps[k + 1..]) == Total(ps) - Value(ps[k])
  {
    SplitAround(ps, k);
    TotalSplit(ps[..k], ps[k], ps[k + 1..]);
  }

  /** A list is the records before `k`, the record at `k` and the records after it. */
  lemma SplitAround<T>(s: seq<T>, k: nat)
    requires k < |s|
    ensures s[..k] + [s[k]] + s[k + 1..] == s
  {
  }

  // ---------------------------------------------------------------------------
  // Input validation

  /**
   * The guard of the add handler: the name is not empty (a truthy string) and
   * neither number is NaN. A number that did not parse is `None`.
   */
  predicate Accepts(nombre: string, precio: Option<real>, cantidad: Option<int>)
  {
    nombre != [] && precio.Some? && cantidad.Some?
  }

  // ---------------------------------------------------------------------------
  // Removal by position: `splice(index, 1)`

  /**
   * The position `splice` starts from on a list of length `n`: a negative
   * index counts back from the end (and stops at 0), an index past the end
   * is clamped to the end.
   */
  function SpliceStart(n: nat, index: int): (k: nat)
    ensures k <= n
    ensures 0 <= index <= n ==> k == index
    ensures index < 0 && n + index >= 0 ==> k == n + index
    ensures index > n ==> k == n
    ensures index < 0 && n + index < 0 ==> k == 0
  {
    if index < 0 then (if n + index < 0 then 0 else n + index)
    else if index > n then n
    else index
  }

  /** The list after `splice(index, 1)`: at most one record removed, the rest shifted down. */
  function RemoveAt(ps: seq<Product>, index: int): (r: seq<Product>)
    ensures 0 <= index < |ps| ==>
      |r| == |ps| - 1 &&
      (forall j :: 0 <= j < index ==> r[j] == ps[j]) &&
      (forall j :: index < j < |ps| ==> r[j - 1] == ps[j])
    ensures index >= |ps| ==> r == ps
    ensures -|ps| <= index < 0 ==> r == ps[..|ps| + index] + ps[|ps| + index + 1..]
    ensures index < -|ps| && ps != [] ==> r == ps[1..]
  {
    var k := SpliceStart(|ps|, index);
    if k < |ps| then ps[..k] + ps[k + 1..] else ps
  }

  /** Nothing but the record at the splice position is lost, and only when there is one. */
  lemma RemoveAtMultiset(ps: seq<Product>, index: int)
    ensures var k := SpliceStart(|ps|, index);
      if k < |ps| then multiset(RemoveAt(ps, index)) + multiset{ps[k]} == multiset(ps)
      else RemoveAt(ps, index) == ps
  {
    var k := SpliceStart(|ps|, index);
    if k < |ps| {
      assert ps == ps[..k] + [ps[k]] + ps[k + 1..];
    }
  }

  // ---------------------------------------------------------------------------
  // Search by name

  /** The search test: the lower-cased name includes the lower-cased query. */
  predicate Matches(p: Product, query: string, lower: char -> char)
    ensures query == [] ==> Matches(p, query, lower)
    ensures Matches(p, query, lower) ==> |query| <= |p.nombre|
  {
    IncludesEmpty(Lower(p.nombre, lower));
    Includes(Lower(p.nombre, lower), Lower(query, lower))
  }

  /** `filter(p => p.nombre.toLowerCase().includes(query.toLowerCase()))`. */
  function Search(ps: seq<Product>, query: string, lower: char -> char): (r: seq<Product>)
    ensures |r| <= |ps|
    ensures forall p :: p in r ==> p in ps && Matches(p, query, lower)
  {
    if ps == [] then []
    else
      var last := ps[|ps| - 1];
      Search(ps[..|ps| - 1], query, lower) + (if Matches(last, query, lower) then [last] else [])
  }

  /** Where each search result sits in the full list. */
  function Positions(ps: seq<Product>, query: string, lower: char -> char): (pos: seq<nat>)
  {
    if ps == [] then []
    else
      Positions(ps[..|ps| - 1], query, lower)
        + (if Matches(ps[|ps| - 1], query, lower) then [|ps| - 1] else [])
  }

  /** There is one position per search result, each inside the list. */
  lemma {:induction false} PositionsLength(ps: seq<Product>, query: string, lower: char -> char)
    ensures |Positions(ps, query, lower)| == |Search(ps, query, lower)|
    ensures forall k :: 0 <= k < |Positions(ps, query, lower)| ==>
      k <= Positions(ps, query, lower)[k] < |ps|
    decreases |ps|
  {
    if ps != [] {
      PositionsLength(ps[..|ps| - 1], query, lower);
    }
  }

  /** The k-th search result is the record at the k-th position. */
  lemma {:induction false} PositionsLocate(ps: seq<Product>, query: string, lower: char -> char, k: nat)
    requires k < |Search(ps, query, lower)|
    ensures k < |Positions(ps, query, lower)| && Positions(ps, query, lower)[k] < |ps|
    ensures Search(ps, query, lower)[k] == ps[Positions(ps, query, lower)[k]]
    decreases |ps|
  {
    PositionsLength(ps, query, lower);
    var n := |ps| - 1;
    var init := ps[..n];
    PositionsLength(init, query, lower);
    if k < |Search(init, query, lower)| {
      PositionsLocate(init, query, lower, k);
    }
  }

  /** The positions increase, so the search keeps list order. */
  lemma {:induction false} PositionsIncrease(ps: seq<Product>, query: string, lower: char -> char)
    ensures forall k, l :: 0 <= k < l < |Positions(ps, query, lower)| ==>
      Positions(ps, query, lower)[k] < Positions(ps, query, lower)[l]
    decreases |ps|
  {
    if ps != [] {
      var init := ps[..|ps| - 1];
      PositionsIncrease(init, query, lower);
      PositionsLength(init, query, lower);
    }
  }

  /** A position is listed exactly when the record there matches. */
  lemma {:induction false} PositionsExactlyMatches(ps: seq<Product>, query: string, lower: char -> char, i: nat)
    requires i < |ps|
    ensures i in Positions(ps, query, lower) <==> Matches(ps[i], query, lower)
    decreases |ps|
  {
    var n := |ps| - 1;
    var init := ps[..n];
    PositionsLength(init, query, lower);
    if i < n {
      PositionsExactlyMatches(init, query, lower, i);
      assert ps[i] == init[i];
    } else {
      assert forall j :: j in Positions(init, query, lower) ==> j < n by {
        forall j | j in Positions(init, query, lower) ensures j < n {
          var m :| 0 <= m < |Positions(init, query, lower)| && Positions(init, query, lower)[m] == j;
        }
      }
    }
  }

  /**
   * The search result is exactly the subsequence of matching records, in list
   * order: its k-th record is the record at `Positions[k]`, those positions
   * increase, and a position appears in them if and only if its record matches.
   */
  lemma SearchIsSubsequence(ps: seq<Product>, query: string, lower: char -> char)
    ensures var r, pos := Search(ps, query, lower), Positions(ps, query, lower);
      |pos| == |r| &&
      (forall k :: 0 <= k < |r| ==> k <= pos[k] < |ps| && r[k] == ps[pos[k]]) &&
      (forall k, l :: 0 <= k < l < |pos| ==> pos[k] < pos[l]) &&
      (forall i :: 0 <= i < |ps| ==> (i in pos <==> Matches(ps[i], query, lower)))
  {
    PositionsLength(ps, query, lower);
    PositionsIncrease(ps, query, lower);
    forall k | 0 <= k < |Search(ps, query, lower)|
      ensures Search(ps, query, lower)[k] == ps[Positions(ps, query, lower)[k]]
    {
      PositionsLocate(ps, query, lower, k);
    }
    forall i | 0 <= i < |ps|
      ensures i in Positions(ps, query, lower) <==> Matches(ps[i], query, lower)
    {
      PositionsExactlyMatches(ps, query, lower, i);
    }
  }

  /** An empty query keeps the whole list. */
  lemma {:induction false} SearchEmptyQuery(ps: seq<Product>, lower: char -> char)
    ensures Search(ps, "", lower) == ps
    decreases |ps|
  {
    if ps != [] {
      var n := |ps| - 1;
      SearchEmptyQuery(ps[..n], lower);
      assert Lower("", lower) == [];
      IncludesEmpty(Lower(ps[n].nombre, lower));
      assert ps[..n] + [ps[n]] == ps;
    }
  }

  // ---------------------------------------------------------------------------
  // The table

  /**
   * The row template shared by the full table and the search results: row k
   * shows the k-th record of the rendered list and its delete button calls
   * the delete handler with k.
   */
  function Render(view: seq<Product>): (rows: seq<Row>)
  {
    seq(|view|, k requires 0 <= k < |view| => Row(view[k], k))
  }

  /** In the full table the button of each row addresses the record that row shows. */
  lemma FullRowsTargetTheirRecord(ps: seq<Product>, k: nat)
    requires k < |ps|
    ensures 0 <= Render(ps)[k].target < |ps| && ps[Render(ps)[k].target] == Render(ps)[k].product
  {
  }

  /**
   * In a search result the button of row k passes k, an index into the full
   * list, while the row shows the record at `Positions[k]`, which is at or
   * after k; the two agree when no earlier record was filtered out.
   */
  lemma SearchRowsTargetFullIndex(ps: seq<Product>, query: string, lower: char -> char, k: nat)
    requires k < |Search(ps, query, lower)|
    ensures var row, pos := Render(Search(ps, query, lower))[k], Positions(ps, query, lower);
      row.target == k && k < |pos| && k <= pos[k] < |ps| &&
      row.product == ps[pos[k]] &&
      (pos[k] == k ==> ps[row.target] == row.product)
  {
    SearchIsSubsequence(ps, query, lower);
  }

  /**
   * With the records "pan" and "leche" and the query "leche", the only row
   * shown is "leche", but its delete button passes 0 and so removes "pan".
   */
  lemma SearchRowDeletesOtherRecord()
    ensures var pan, leche := Product("pan", 1.0, 3), Product("leche", 2.0, 1);
      var rows := Render(Search([pan, leche], "leche", c => c));
      rows == [Row(leche, 0)] && RemoveAt([pan, leche], rows[0].target) == [leche]
  {
    var pan, leche := Product("pan", 1.0, 3), Product("leche", 2.0, 1);
    var id := (c: char) => c;
    assert Lower("leche", id) == "leche";
    assert Lower("pan", id) == "pan";
    assert Includes("leche", "leche") by {
      assert IsPrefix("leche", "leche");
    }
    assert !Includes("pan", "leche") by {
      assert !IsPrefix("leche", "pan");
      assert "pan"[1..] == "an";
      assert !IsPrefix("leche", "an");
      assert "an"[1..] == "n";
      assert !IsPrefix("leche", "n");
      assert "n"[1..] == "";
      assert !IsPrefix("leche", "");
    }
    assert [pan, leche][..1] == [pan];
    assert [pan][..0] == [];
    assert Search([pan, leche], "leche", id) == [leche];
  }

  // ---------------------------------------------------------------------------
  // Loading

  /** `JSON.parse(stored) || []`: an absent stored value gives the empty list. */
  function LoadedCatalog(saved: Option<seq<Product>>): (ps: seq<Product>)
    ensures saved == None ==> ps == []
    ensures forall s :: saved == Some(s) ==> ps == s
  {
    match saved
    case None => []
    case Some(s) => s
  }

  // ---------------------------------------------------------------------------
  // The page

  class Inventory {
    /** The in-memory list of records. */
    var productos: seq<Product>
    /** The value under the storage key, as the list it encodes; `None` if absent. */
    ghost var stored: Option<seq<Product>>
    /** The rows of the table body. */
    var rows: seq<Row>
    /** The total shown under the table. */
    var shownTotal: real

    /**
     * Reloading the page gives back the current list, the shown total is the
     * total of the full list, and every row shows a record of the list and
     * passes an index into it.
     */
    ghost predicate Valid()
      reads this
    {
      LoadedCatalog(stored) == productos &&
      shownTotal == Total(productos) &&
      forall row :: row in rows ==> row.product in productos && 0 <= row.target < |productos|
    }

    /** Page load: read the stored list (empty if absent) and show it in full. */
    constructor Load(saved: Option<seq<Product>>)
      ensures Valid()
      ensures productos == LoadedCatalog(saved) && stored == saved
      ensures rows == Render(productos)
    {
      productos := LoadedCatalog(saved);
      stored := saved;
      rows := Render(LoadedCatalog(saved));
      shownTotal := Total(LoadedCatalog(saved));
    }

    /** Overwrite the stored copy with the whole current list. */
    method Persist()
      modifies this`stored
      ensures stored == Some(productos)
    {
      stored := Some(productos);
    }

    /** Show the total of the full list. */
    method ShowTotal()
      modifies this`shownTotal
      ensures shownTotal == Total(productos)
    {
      shownTotal := Total(productos);
    }

    /** Show the full list, one row per record, and then its total. */
    method ShowAll()
      modifies this`rows, this`shownTotal
      ensures rows == Render(productos) && shownTotal == Total(productos)
    {
      rows := Render(productos);
      ShowTotal();
    }

    /**
     * The add handler: when the inputs pass the guard, append the new record,
     * store the list and show it; otherwise do nothing at all.
     */
    method Add(nombre: string, precio: Option<real>, cantidad: Option<int>)
      requires Valid()
      modifies this
      ensures Valid()
      ensures Accepts(nombre, precio, cantidad) ==>
        var p := Product(nombre, precio.value, cantidad.value);
        productos == old(productos) + [p] &&
        stored == Some(productos) &&
        rows == Render(productos) &&
        shownTotal == old(shownTotal) + Value(p)
      ensures !Accepts(nombre, precio, cantidad) ==>
        productos == old(productos) && stored == old(stored) &&
        rows == old(rows) && shownTotal == old(shownTotal)
    {
      if Accepts(nombre, precio, cantidad) {
        var p := Product(nombre, precio.value, cantidad.value);
        TotalAppend(productos, p);
        productos := productos + [p];
        Persist();
        ShowAll();
      }
    }

    /**
     * The delete handler: `splice(index, 1)` on the full list, then store the
     * list and show it. The list is stored even when nothing was removed.
     */
    method Delete(index: int)
      requires Valid()
      modifies this
      ensures Valid()
      ensures productos == RemoveAt(old(productos), index)
      ensures stored == Some(productos)
      ensures rows == Render(productos)
      ensures var k := SpliceStart(|old(productos)|, index);
        k < |old(productos)| ==> shownTotal == old(shownTotal) - Value(old(productos)[k])
    {
      var k := SpliceStart(|productos|, index);
      if k < |productos| {
        TotalRemove(productos, k);
      }
      productos := RemoveAt(productos, index);
      Persist();
      ShowAll();
    }

    /**
     * The search handler: show only the records whose name matches, numbered
     * from 0. The list, the stored copy and the shown total are left alone.
     */
    method Find(query: string, lower: char -> char)
      requires Valid()
      modifies this`rows
      ensures Valid()
      ensures rows == Render(Search(productos, query, lower))
    {
      rows := Render(Search(productos, query, lower));
    }

    /**
     * Pressing the delete button of shown row k: the handler gets the row's
     * index, which always lies inside the list, so exactly one record goes,
     * the one at that index in the full list.
     */
    method PressDelete(k: nat)
      requires Valid()
      requires k < |rows|
      modifies this
      ensures Valid()
      ensures var i := old(rows)[k].target;
        0 <= i < |old(productos)| &&
        productos == old(productos)[..i] + old(productos)[i + 1..]
      ensures stored == Some(productos) && rows == Render(productos)
      ensures shownTotal == old(shownTotal) - Value(old(productos)[old(rows)[k].target])
    {
      assert rows[k] in rows;
      Delete(rows[k].target);
    }
  }
}
