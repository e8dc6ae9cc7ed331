/** The slice of a pandas DataFrame that the loader touches: named columns of
    cells, column lookup `df[name]`, column assignment `df[name] = values`, and
    the per-cell effect of pandas' `to_numeric` with coercion followed by the
    cast to nullable `Int64`.
    Parsing text as a number is pandas' business and is passed in as the
    oracle `numeric`. */
module Tables {
  import opened Wrappers

  /** A cell as read from CSV: text, an integer, or missing (`NaN`/`<NA>`). */
  datatype Cell = Text(text: string) | Int(value: int) | NA

  datatype Column = Column(name: string, cells: seq<Cell>)

  /** Columns in file order; `read_csv` gives them distinct names. */
  datatype Table = Table(columns: seq<Column>)

  /** `df.columns`. */
  function Header(df: Table): (names: seq<string>)
    ensures |names| == |df.columns|
    ensures forall i | 0 <= i < |names| :: names[i] == df.columns[i].name
  {
    seq(|df.columns|, i requires 0 <= i < |df.columns| => df.columns[i].name)
  }

  /** Position of the first column called `name`. */
  function IndexOf(df: Table, name: string): (k: nat)
    requires name in Header(df)
    ensures k < |df.columns| && df.columns[k].name == name
    ensures forall j | 0 <= j < k :: df.columns[j].name != name
    decreases |df.columns|
  {
    if df.columns[0].name == name then 0
    else 1 + IndexOf(Table(df.columns[1..]), name)
  }

  /** `df[name]`. */
  function Col(df: Table, name: string): seq<Cell>
    requires name in Header(df)
  {
    df.columns[IndexOf(df, name)].cells
  }

  /** `df[name] = cells`: replaces the column called `name`, or appends a new
      one when there is none. */
  function Assign(df: Table, name: string, cells: seq<Cell>): (r: Table)
    ensures name in Header(df) ==> Header(r) == Header(df)
    ensures name !in Header(df) ==> Header(r) == Header(df) + [name]
    ensures name in Header(r) && Col(r, name) == cells
    ensures forall j | 0 <= j < |df.columns| && df.columns[j].name != name :: r.columns[j] == df.columns[j]
  {
    if name in Header(df) then Table(df.columns[IndexOf(df, name) := Column(name, cells)])
    else Table(df.columns + [Column(name, cells)])
  }

  /** A value of pandas' nullable `Int64` dtype. */
  predicate IsNullableInt(c: Cell) {
    c.Int? || c.NA?
  }

  /** One cell through `to_numeric(errors="coerce")` then `astype("Int64")`:
      numbers stay, missing stays missing, text becomes the number it parses
      to, and text the parser rejects becomes missing instead of raising. */
  function ToNullableInt(c: Cell, numeric: string -> Option<int>): (r: Cell)
    ensures IsNullableInt(r)
    ensures IsNullableInt(c) ==> r == c
    ensures c.Text? ==> (r.NA? <==> numeric(c.text).None?)
    ensures c.Text? && numeric(c.text).Some? ==> r == Int(numeric(c.text).value)
  {
    match c
    case Text(s) => (match numeric(s) case Some(n) => Int(n) case None => NA)
    case Int(n) => Int(n)
    case NA => NA
  }

  /** The coercion applied to a whole column (vectorised). */
  function ToNullableInts(cells: seq<Cell>, numeric: string -> Option<int>): (r: seq<Cell>)
    ensures |r| == |cells|
    ensures forall j | 0 <= j < |r| :: r[j] == ToNullableInt(cells[j], numeric)
  {
    seq(|cells|, j requires 0 <= j < |cells| => ToNullableInt(cells[j], numeric))
  }
}
