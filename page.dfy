/** The pages the parsers read, as the few elements and attributes the parsers consult, and the
  * row walk every parser does: visit the rows of a table in order and gather what each row
  * yields, stopping at the first exception. */
module Page {
  import opened Wrappers

  /** An `<a>` element: its text and its href attribute. */
  datatype Link = Link(text: string, href: string)

  /** An `<img>` element: its src and title attributes, and the class list of its parent
    * (None when the parent has no class attribute). */
  datatype Image = Image(src: string, title: Option<string>, parentClass: Option<seq<string>>)

  /** A `<div>` inside a cell: its text and its id attribute. */
  datatype Div = Div(text: string, id: Option<string>)

  /** A cell of a row: its text, its first link, its first image, its divs, the text of its
    * `div.retestdate`, whether it holds the `分發錄取` image, and the rows of the table nested
    * after it (None when there is none). An absent element is None. */
  datatype Cell = Cell(
    text: string,
    link: Option<Link>,
    image: Option<Image>,
    divs: seq<Div>,
    retestDate: Option<string>,
    admittedMark: bool,
    nested: Option<seq<Row>>)

  /** A table row, as the cells its parser's query selects in it. */
  type Row = seq<Cell>

  /** An entry of the navigation menu: the text of its link (its title), and the entries reached from it
    * (the next `li` and its following siblings), each as the text of its link. */
  datatype NavItem = NavItem(title: Option<string>, following: seq<Option<string>>)

  /** The two tables after the `mainContent` div of an admission page: the summary table and
    * the one after it. */
  datatype MainContent = MainContent(first: Option<seq<Row>>, second: Option<seq<Row>>)

  /** A fetched page: the navigation menu, the rows of the table with id `table1`, and the
    * `mainContent` div. */
  datatype Document = Document(navigation: seq<NavItem>, table1: Option<seq<Row>>, mainContent: Option<MainContent>)

  // ---------------------------------------------------------------------------
  // The row walk

  /** What the walk over `items` gathers when item x yields f(x): the first exception ends it. */
  function Collect<R, X>(items: seq<R>, f: R -> Result<seq<X>>): Result<seq<X>> {
    if items == [] then Ok([])
    else match Collect(items[..|items| - 1], f)
      case Err(e) => Err(e)
      case Ok(xs) =>
        match f(items[|items| - 1])
        case Err(e) => Err(e)
        case Ok(ys) => Ok(xs + ys)
  }

  /** Once the walk has failed, later items change nothing. */
  lemma {:induction false} CollectErrSticks<R, X>(a: seq<R>, b: seq<R>, f: R -> Result<seq<X>>)
    requires Collect(a, f).Err?
    ensures Collect(a + b, f) == Collect(a, f)
    decreases |b|
  {
    if b == [] {
      assert a + b == a;
    } else {
      assert (a + b)[..|a + b| - 1] == a + b[..|b| - 1];
      CollectErrSticks(a, b[..|b| - 1], f);
    }
  }

  /** One more item: the records so far are extended with what that item yields. */
  lemma CollectNext<R, X>(items: seq<R>, i: nat, f: R -> Result<seq<X>>)
    requires i < |items|
    ensures Collect(items[..i + 1], f) ==
              match Collect(items[..i], f)
              case Err(e) => Err(e)
              case Ok(xs) => (match f(items[i]) case Err(e) => Err(e) case Ok(ys) => Ok(xs + ys))
  {
    assert items[..i + 1][..i] == items[..i];
  }

  /** The `while row:` loop of a parser. */
  method CollectLoop<R, X>(items: seq<R>, f: R -> Result<seq<X>>) returns (r: Result<seq<X>>)
    ensures r == Collect(items, f)
  {
    var acc: seq<X> := [];
    var i := 0;
    while i < |items|
      invariant 0 <= i <= |items|
      invariant Collect(items[..i], f) == Ok(acc)
    {
      CollectNext(items, i, f);
      var y := f(items[i]);
      if y.Err? {
        CollectErrSticks(items[..i + 1], items[i + 1..], f);
        assert items[..i + 1] + items[i + 1..] == items;
        return Err(y.error);
      }
      acc := acc + y.value;
      i := i + 1;
    }
    assert items[..|items|] == items;
    r := Ok(acc);
  }

  /** The walk succeeds exactly when every item does; otherwise it fails with the exception of
    * the first item that fails. */
  lemma {:induction false} CollectFirstError<R, X>(items: seq<R>, f: R -> Result<seq<X>>)
    ensures Collect(items, f).Ok? <==> forall i :: 0 <= i < |items| ==> f(items[i]).Ok?
    ensures Collect(items, f).Err? ==>
              exists i :: 0 <= i < |items| && f(items[i]) == Err(Collect(items, f).error) &&
                          forall j :: 0 <= j < i ==> f(items[j]).Ok?
  {
    if items != [] {
      var init := items[..|items| - 1];
      CollectFirstError(init, f);
      assert forall i :: 0 <= i < |init| ==> init[i] == items[i];
    }
  }

  /** A property every item's records have holds of all the records the walk gathers. */
  lemma {:induction false} CollectAll<R, X>(items: seq<R>, f: R -> Result<seq<X>>, p: X -> bool)
    requires forall x :: f(x).Ok? ==> forall y :: y in f(x).value ==> p(y)
    ensures Collect(items, f).Ok? ==> forall y :: y in Collect(items, f).value ==> p(y)
  {
    if items != [] && Collect(items, f).Ok? {
      CollectAll(items[..|items| - 1], f, p);
      assert Collect(items, f).value == Collect(items[..|items| - 1], f).value + f(items[|items| - 1]).value;
    }
  }

  /** The items `keep` selects, in order. */
  function Filter<R>(items: seq<R>, keep: R -> bool): (r: seq<R>)
    ensures |r| <= |items|
    ensures forall x :: x in r ==> x in items && keep(x)
  {
    if items == [] then []
    else Filter(items[..|items| - 1], keep) + (if keep(items[|items| - 1]) then [items[|items| - 1]] else [])
  }

  /** When each item yields one record if `keep` selects it and none otherwise, a successful
    * walk yields one record per selected item, the k-th from the k-th selected item. */
  lemma {:induction false} CollectSingles<R, X>(items: seq<R>, f: R -> Result<seq<X>>, keep: R -> bool)
    requires forall x :: f(x).Ok? ==> |f(x).value| == (if keep(x) then 1 else 0)
    ensures Collect(items, f).Ok? ==>
              var xs := Collect(items, f).value; var kept := Filter(items, keep);
              |xs| == |kept| && forall k :: 0 <= k < |xs| ==> f(kept[k]) == Ok([xs[k]])
  {
    if items != [] && Collect(items, f).Ok? {
      var init, x := items[..|items| - 1], items[|items| - 1];
      CollectSingles(init, f, keep);
      var xs := Collect(items, f).value;
      var ys := Collect(init, f).value;
      var kept := Filter(items, keep);
      assert kept == Filter(init, keep) + (if keep(x) then [x] else []);
      if keep(x) {
        assert xs == ys + f(x).value;
        assert f(x).value == [xs[|xs| - 1]];
        assert f(x) == Ok(f(x).value);
      } else {
        assert xs == ys + [];
      }
    }
  }
}
