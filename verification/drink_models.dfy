/**
 * The `drinks` table of `backend/app/drink/models.py` and the row operations
 * on it. The table is a map from row id to row; committing a row enforces the
 * column constraints (`title` NOT NULL and UNIQUE, `recipe` NOT NULL with the
 * default `[]`) the way the ORM and the SQLite database configured for the
 * app do.
 */
module DrinkModels {
  import opened Optional
  import opened Json

  /** One row: the integer primary key, the title and the pickled recipe. */
  datatype Drink = Drink(id: int, title: string, recipe: Json)

  /** The dictionary `short()`, `long()` and `format()` return. */
  datatype DrinkView = DrinkView(id: int, title: string, recipe: Json)

  /**
   * The table: its rows keyed by id, and the ids in the order of SQLite's
   * rowid index, which is the order a full-table query returns rows in.
   */
  datatype Store = Store(rows: map<int, Drink>, ids: seq<int>)

  /** Some row other than `except` has title `t`. */
  predicate TitleTaken(s: Store, t: string, except: Option<int>) {
    exists k | k in s.rows :: s.rows[k].title == t && Some(k) != except
  }

  /** Strictly increasing. */
  predicate Ascending(ids: seq<int>) {
    forall i, j :: 0 <= i < j < |ids| ==> ids[i] < ids[j]
  }

  /**
   * What the database guarantees of every committed state: the rowid index
   * lists exactly the rows, in ascending order; each row sits under its own
   * id, a 64-bit integer; no `recipe` is NULL; and no two rows share a title.
   */
  ghost predicate Valid(s: Store) {
    && Ascending(s.ids)
    && (forall k :: k in s.rows <==> k in s.ids)
    && (forall k | k in s.rows :: s.rows[k].id == k && FitsInt64(k) && s.rows[k].recipe != JNull)
    && (forall a, b | a in s.rows && b in s.rows :: s.rows[a].title == s.rows[b].title ==> a == b)
  }

  /** The empty table. */
  function Empty(): (s: Store)
    ensures Valid(s) && |s.rows| == 0
  {
    Store(map[], [])
  }

  /**
   * The id SQLite gives a row inserted without one: one more than the
   * largest id in the table, or 1 when the table is empty.
   */
  function NewRowId(s: Store): (id: int)
    requires Valid(s)
    ensures id !in s.rows
    ensures forall k | k in s.rows :: k < id
    ensures |s.ids| == 0 ==> id == 1
    ensures |s.ids| > 0 ==> id - 1 in s.rows
  {
    if |s.ids| == 0 then 1 else s.ids[|s.ids| - 1] + 1
  }

  /** `ids` without `id`, order kept. */
  function Without(ids: seq<int>, id: int): (r: seq<int>)
    requires Ascending(ids)
    ensures Ascending(r)
    ensures forall k :: k in r <==> k in ids && k != id
    decreases |ids|
  {
    if |ids| == 0 then []
    else
      var rest := Without(ids[1..], id);
      assert forall k :: k in ids[1..] ==> ids[0] < k;
      if ids[0] == id then rest
      else
        var r := [ids[0]] + rest;
        assert forall j :: 1 <= j < |r| ==> r[j] == rest[j - 1];
        assert forall j :: 0 <= j < |rest| ==> rest[j] in ids[1..];
        r
  }

  /** Removing an id just appended (and absent before) restores the index. */
  lemma {:induction false} WithoutAppended(ids: seq<int>, id: int)
    requires Ascending(ids + [id]) && id !in ids
    ensures Without(ids + [id], id) == ids
    decreases |ids|
  {
    if |ids| > 0 {
      assert (ids + [id])[1..] == ids[1..] + [id];
      assert Ascending(ids[1..] + [id]) by {
        assert forall i :: 0 <= i < |ids[1..] + [id]| ==> (ids[1..] + [id])[i] == (ids + [id])[i + 1];
      }
      WithoutAppended(ids[1..], id);
      assert [ids[0]] + ids[1..] == ids;
    } else {
      assert [id][1..] == [];
    }
  }

  // ---- column values ----

  /** How a Python value bound to the `title` column is stored. */
  datatype TitleColumn = Text(s: string) | Null | Unbindable

  function DigitChar(d: nat): char
    requires d < 10
  {
    "0123456789"[d]
  }

  function Digits(n: nat): string
    decreases n
  {
    if n < 10 then [DigitChar(n)] else Digits(n / 10) + [DigitChar(n % 10)]
  }

  /** Decimal text of an integer, as SQLite renders it. */
  function IntText(n: int): string {
    if n < 0 then "-" + Digits(-n) else Digits(n)
  }

  /** The range of a parameter SQLite can bind as an INTEGER: 64-bit two's complement. */
  const MinInt64: int := -0x8000_0000_0000_0000
  const MaxInt64: int := 0x7FFF_FFFF_FFFF_FFFF

  predicate FitsInt64(n: int) {
    MinInt64 <= n <= MaxInt64
  }

  /**
   * SQLite stores a string as given and `None` as NULL; integers and booleans
   * are converted to text by the column's TEXT affinity; lists and dicts
   * cannot be bound as parameters at all, nor can an integer outside the
   * 64-bit range (the driver raises `OverflowError`).
   */
  function BindTitle(value: Json): (c: TitleColumn)
    ensures value.JStr? ==> c == Text(value.s)
    ensures c.Null? <==> value.JNull?
    ensures c.Unbindable? <==> value.JArr? || value.JObj? || (value.JNum? && !FitsInt64(value.n))
  {
    match value
    case JStr(s) => Text(s)
    case JNull => Null
    case JBool(b) => Text(if b then "1" else "0")
    case JNum(n) => if FitsInt64(n) then Text(IntText(n)) else Unbindable
    case JArr(_) => Unbindable
    case JObj(_) => Unbindable
  }

  // ---- session operations ----

  /**
   * The outcome of `db.session.commit()`: the new table and the committed
   * row, an `IntegrityError` (a NOT NULL or UNIQUE violation), or another
   * database error. On either error the table is unchanged.
   */
  datatype Commit = Committed(store: Store, drink: Drink) | IntegrityError | OtherDbError

  /** The `recipe` column's default, `[]`. */
  const DefaultRecipe := JArr([])

  /**
   * `Drink(title, recipe).insert()`: adds the row under a fresh id and
   * returns the same row. The ORM leaves a `None` recipe out of the INSERT
   * because the column has a default, so the row gets `[]` instead of NULL.
   * Once the largest id is the largest 64-bit integer there is no next id,
   * and the insert is a database error.
   */
  function Insert(s: Store, title: Json, recipe: Json): (c: Commit)
    requires Valid(s)
    ensures c.Committed? ==> Valid(c.store)
    ensures c.Committed? <==>
      BindTitle(title).Text? && !TitleTaken(s, BindTitle(title).s, None) && FitsInt64(NewRowId(s))
    ensures c.Committed? ==>
      && c.drink.id == NewRowId(s)
      && c.drink.id !in s.rows
      && c.drink.title == BindTitle(title).s
      && (recipe != JNull ==> c.drink.recipe == recipe)
      && (recipe == JNull ==> c.drink.recipe == DefaultRecipe)
      && c.store.rows == s.rows[c.drink.id := c.drink]
    ensures c.OtherDbError? <==>
      || BindTitle(title).Unbindable?
      || (BindTitle(title).Text? && !TitleTaken(s, BindTitle(title).s, None) && !FitsInt64(NewRowId(s)))
  {
    match BindTitle(title)
    case Unbindable => OtherDbError
    case Null => IntegrityError
    case Text(t) =>
      if TitleTaken(s, t, None) then IntegrityError
      else if !FitsInt64(NewRowId(s)) then OtherDbError
      else
        var d := Drink(NewRowId(s), t, if recipe == JNull then DefaultRecipe else recipe);
        Committed(Store(s.rows[d.id := d], s.ids + [d.id]), d)
  }

  /**
   * `drink.update()` after the attributes of row `id` were set to `title`
   * and `recipe`: commits them, keeping the id, and returns the same row. An
   * UPDATE writes a `None` recipe as NULL, which the NOT NULL constraint
   * refuses.
   */
  function Update(s: Store, id: int, title: Json, recipe: Json): (c: Commit)
    requires Valid(s) && id in s.rows
    ensures c.Committed? ==> Valid(c.store)
    ensures c.Committed? <==>
      BindTitle(title).Text? && recipe != JNull && !TitleTaken(s, BindTitle(title).s, Some(id))
    ensures c.Committed? ==>
      && c.drink == Drink(id, BindTitle(title).s, recipe)
      && c.store.rows == s.rows[id := c.drink]
    ensures c.OtherDbError? <==> BindTitle(title).Unbindable?
  {
    match BindTitle(title)
    case Unbindable => OtherDbError
    case Null => IntegrityError
    case Text(t) =>
      if recipe == JNull || TitleTaken(s, t, Some(id)) then IntegrityError
      else
        var d := Drink(id, t, recipe);
        Committed(Store(s.rows[id := d], s.ids), d)
  }

  /** `drink.delete()`: removes exactly that row. */
  function Delete(s: Store, id: int): (s': Store)
    requires Valid(s) && id in s.rows
    ensures Valid(s')
    ensures id !in s'.rows
    ensures forall k | k in s.rows && k != id :: k in s'.rows && s'.rows[k] == s.rows[k]
    ensures forall k | k in s'.rows :: k in s.rows
  {
    Store(s.rows - {id}, Without(s.ids, id))
  }

  // ---- projections ----

  /** `{'color': rec['color'], 'parts': rec['parts']}`; `None` where indexing raises. */
  function ShortEntry(rec: Json): (r: Option<Json>)
    ensures r.Some? <==> rec.JObj? && "color" in rec.fields && "parts" in rec.fields
    ensures r.Some? ==>
      && r.value.JObj?
      && r.value.fields.Keys == {"color", "parts"}
      && r.value.fields["color"] == rec.fields["color"]
      && r.value.fields["parts"] == rec.fields["parts"]
  {
    if rec.JObj? && "color" in rec.fields && "parts" in rec.fields then
      Some(JObj(map["color" := rec.fields["color"], "parts" := rec.fields["parts"]]))
    else
      None
  }

  /** The list comprehension over the recipe entries, in order. */
  function ShortEntries(items: seq<Json>): (r: Option<seq<Json>>)
    ensures r.Some? <==> forall i :: 0 <= i < |items| ==> ShortEntry(items[i]).Some?
    ensures r.Some? ==>
      |r.value| == |items| && forall i :: 0 <= i < |items| ==> r.value[i] == ShortEntry(items[i]).value
    decreases |items|
  {
    if |items| == 0 then Some([])
    else
      match (ShortEntry(items[0]), ShortEntries(items[1..]))
      case (Some(e), Some(rest)) =>
        assert forall i :: 1 <= i < |items| ==> items[1..][i - 1] == items[i];
        Some([e] + rest)
      case _ =>
        assert forall i :: 1 <= i < |items| ==> items[1..][i - 1] == items[i];
        None
  }

  /**
   * `for rec in self.recipe`: a list yields its entries; iterating a dict or
   * a string yields keys or characters, which cannot be indexed by 'color',
   * so only an empty one gets through; other values are not iterable.
   */
  function ShortRecipe(recipe: Json): (r: Option<seq<Json>>)
    ensures recipe.JArr? ==> r == ShortEntries(recipe.items)
    ensures recipe.JObj? ==> (r.Some? <==> |recipe.fields| == 0)
    ensures recipe.JStr? ==> (r.Some? <==> |recipe.s| == 0)
    ensures r.Some? && !recipe.JArr? ==> r.value == []
    ensures recipe.JNull? || recipe.JBool? || recipe.JNum? ==> r.None?
  {
    match recipe
    case JArr(items) => ShortEntries(items)
    case JObj(fields) => if |fields| == 0 then Some([]) else None
    case JStr(s) => if |s| == 0 then Some([]) else None
    case _ => None
  }

  /** `long()`: the row as it is stored. */
  function Long(d: Drink): (v: DrinkView)
    ensures v.id == d.id && v.title == d.title && v.recipe == d.recipe
  {
    DrinkView(d.id, d.title, d.recipe)
  }

  /** `format()`: the same dictionary as `long()`. */
  function Format(d: Drink): (v: DrinkView)
    ensures v == Long(d)
  {
    DrinkView(d.id, d.title, d.recipe)
  }

  /** `short()`: id and title unchanged, each recipe entry cut down to color and parts. */
  function Short(d: Drink): (v: Option<DrinkView>)
    ensures v.Some? <==> ShortRecipe(d.recipe).Some?
    ensures v.Some? ==> v.value == DrinkView(d.id, d.title, JArr(ShortRecipe(d.recipe).value))
  {
    match ShortRecipe(d.recipe)
    case Some(entries) => Some(DrinkView(d.id, d.title, JArr(entries)))
    case None => None
  }

  /**
   * `short()` is `long()` with every recipe entry restricted to its `color`
   * and `parts` members, in the same order.
   */
  lemma ShortRestrictsLong(d: Drink)
    requires d.recipe.JArr? && Short(d).Some?
    ensures var s, l := Short(d).value, Long(d);
      && s.id == l.id && s.title == l.title
      && s.recipe.JArr? && |s.recipe.items| == |l.recipe.items|
      && forall i :: 0 <= i < |s.recipe.items| ==>
           && s.recipe.items[i].JObj? && l.recipe.items[i].JObj?
           && s.recipe.items[i].fields.Keys == {"color", "parts"}
           && forall k | k in s.recipe.items[i].fields :: s.recipe.items[i].fields[k] == l.recipe.items[i].fields[k]
  {
  }
}
