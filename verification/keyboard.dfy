/** The category menu sent for `/gasto`: one button per catalog entry,
    laid out two per row in catalog order, each carrying `categoria_<key>`. */
module Keyboard {
  import Catalog

  /** An inline keyboard button: its visible text and its callback data. */
  datatype Button = Button(text: string, callbackData: string)

  /** The prefix of every category button's callback data. */
  const CallbackPrefix: string := "categoria_"

  /** The buttons of a keyboard read row by row. */
  function Flatten<T>(rows: seq<seq<T>>): seq<T> {
    if |rows| == 0 then [] else rows[0] + Flatten(rows[1..])
  }

  /** Rows of two, with a final single item when the count is odd. */
  function Rows<T>(items: seq<T>): seq<seq<T>> {
    if |items| == 0 then []
    else if |items| <= 2 then [items]
    else [items[..2]] + Rows(items[2..])
  }

  /** Every row holds one or two items, only the last may hold one, and reading
      the rows in order gives back exactly the items. */
  lemma {:induction false} RowsShape<T>(items: seq<T>)
    ensures Flatten(Rows(items)) == items
    ensures |Rows(items)| == (|items| + 1) / 2
    ensures forall i | 0 <= i < |Rows(items)| :: 1 <= |Rows(items)[i]| <= 2
    ensures forall i | 0 <= i < |Rows(items)| - 1 :: |Rows(items)[i]| == 2
    decreases |items|
  {
    if |items| > 2 {
      var rest := Rows(items[2..]);
      RowsShape(items[2..]);
      assert Rows(items) == [items[..2]] + rest;
      assert Rows(items)[1..] == rest;
      assert items == items[..2] + items[2..];
      forall i | 1 <= i < |Rows(items)| ensures Rows(items)[i] == rest[i - 1] { }
    }
  }

  /** Appending one full or final row at an even boundary appends one row. */
  lemma {:induction false} RowsAppend<T>(done: seq<T>, row: seq<T>)
    requires |done| % 2 == 0
    requires 1 <= |row| <= 2
    ensures Rows(done + row) == Rows(done) + [row]
    decreases |done|
  {
    if |done| == 0 {
      assert done + row == row;
    } else {
      assert (done + row)[..2] == done[..2];
      assert (done + row)[2..] == done[2..] + row;
      RowsAppend(done[2..], row);
      if |done| == 2 {
        assert done[2..] == [];
      }
    }
  }

  /** The layout loop of `nuevo_gasto`: collect buttons into `row`, push it
      when it holds two, and push a final short row if one is left over. */
  method LayOutRows<T>(items: seq<T>) returns (keyboard: seq<seq<T>>)
    ensures keyboard == Rows(items)
  {
    keyboard := [];
    var row: seq<T> := [];
    var done := 0;
    while done + |row| < |items|
      invariant done % 2 == 0 && |row| < 2
      invariant done + |row| <= |items|
      invariant row == items[done..done + |row|]
      invariant keyboard == Rows(items[..done])
      decreases |items| - done - |row|
    {
      row := row + [items[done + |row|]];
      if |row| == 2 {
        PushRow(items, done, row);
        keyboard := keyboard + [row];
        done := done + 2;
        row := [];
      }
    }
    if |row| > 0 {
      PushRow(items, done, row);
      keyboard := keyboard + [row];
    }
    assert items[..done + |row|] == items;
  }

  /** The loop step of `LayOutRows`: pushing the pending row extends the layout
      of the items seen so far. */
  lemma PushRow<T>(items: seq<T>, done: nat, row: seq<T>)
    requires done % 2 == 0 && 1 <= |row| <= 2 && done + |row| <= |items|
    requires row == items[done..done + |row|]
    ensures Rows(items[..done + |row|]) == Rows(items[..done]) + [row]
  {
    RowsAppend(items[..done], row);
    assert items[..done + |row|] == items[..done] + items[done..done + |row|];
    assert items[..done] + row == items[..done + |row|];
  }

  /** The button for catalog entry `i`. */
  function CategoryButton(i: nat): (b: Button)
    requires i < |Catalog.Entries|
  {
    Button(Catalog.Entries[i].1, CallbackPrefix + Catalog.Entries[i].0)
  }

  /** One button per catalog entry, in catalog order. */
  function CategoryButtons(): (bs: seq<Button>)
    ensures |bs| == |Catalog.Entries|
    ensures forall i | 0 <= i < |bs| :: bs[i] == CategoryButton(i)
  {
    seq(|Catalog.Entries|, i requires 0 <= i < |Catalog.Entries| => CategoryButton(i))
  }

  /** The reply markup of `nuevo_gasto`. */
  function CategoryMenu(): seq<seq<Button>> {
    Rows(CategoryButtons())
  }

  /** With seven categories the menu has four rows, three full and a final single button,
      and reading it row by row gives every entry's button, label and key, in catalog order. */
  lemma CategoryMenuShape()
    ensures |CategoryMenu()| == 4
    ensures forall r | 0 <= r < 3 :: |CategoryMenu()[r]| == 2
    ensures |CategoryMenu()[3]| == 1
    ensures |Flatten(CategoryMenu())| == |Catalog.Keys()|
    ensures forall i | 0 <= i < |Catalog.Keys()| ::
      Flatten(CategoryMenu())[i].callbackData == CallbackPrefix + Catalog.Keys()[i]
    ensures forall i | 0 <= i < |Catalog.Entries| :: Flatten(CategoryMenu())[i].text == Catalog.Entries[i].1
  {
    Catalog.CatalogShape();
    RowsShape(CategoryButtons());
  }
}
