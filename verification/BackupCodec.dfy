/** How one stored value is written into a backup file and read back. */
module BackupCodec {

  datatype Json = JNull | JText(s: string) | JNumber(n: int) | JFlag(b: bool) | JList(items: seq<Json>) | JObject(fields: map<string, Json>)

  datatype DateKind = DateAndTime | DateOnly | TimeOnly

  /** A value as the database gives it. A `Tree` is a list or an object kept in one column. */
  datatype Cell =
    | Null
    | Text(s: string)
    | Number(n: int)
    | Flag(b: bool)
    | Dated(kind: DateKind, at: int)
    | Choice(value: string)
    | Blob(bytes: seq<nat>)
    | Tree(json: Json)

  /** What the reader knows of a column. */
  datatype ColumnType = Plain | Choices(values: set<string>) | Dates(kind: DateKind)

  datatype Read<T> = Value(value: T) | Unreadable

  /** The library calls that write and read dates and bytes as text. */
  datatype Formats = Formats(
    iso: (DateKind, int) -> string,
    parse: (DateKind, string) -> Read<int>,
    encode: seq<nat> -> string,
    decode: string -> Read<seq<nat>>)

  ghost predicate Faithful(f: Formats) {
    && (forall kind, at :: f.parse(kind, f.iso(kind, at)) == Value(at))
    && (forall bytes :: f.decode(f.encode(bytes)) == Value(bytes))
  }

  const BYTES: string := "__bytes_b64__"

  function Serialize(f: Formats, c: Cell): Json {
    match c
    case Null => JNull
    case Text(s) => JText(s)
    case Number(n) => JNumber(n)
    case Flag(b) => JFlag(b)
    case Dated(kind, at) => JText(f.iso(kind, at))
    case Choice(v) => JText(v)
    case Blob(bytes) => JObject(map[BYTES := JText(f.encode(bytes))])
    case Tree(j) => j
  }

  function ReadBytes(f: Formats, j: Json): Read<Cell> {
    if !j.JText? then Unreadable
    else match f.decode(j.s)
         case Value(bytes) => Value(Blob(bytes))
         case Unreadable => Unreadable
  }

  function Deserialize(f: Formats, t: ColumnType, j: Json): Read<Cell> {
    if j.JNull? then Value(Null)
    else if j.JObject? && BYTES in j.fields then ReadBytes(f, j.fields[BYTES])
    else match t
         case Choices(values) => if j.JText? && j.s in values then Value(Choice(j.s)) else Unreadable
         case Dates(kind) =>
           if !j.JText? then Unreadable
           else (match f.parse(kind, j.s)
                 case Value(at) => Value(Dated(kind, at))
                 case Unreadable => Unreadable)
         case Plain =>
           (match j
            case JText(s) => Value(Text(s))
            case JNumber(n) => Value(Number(n))
            case JFlag(b) => Value(Flag(b))
            case _ => Value(Tree(j)))
  }

  /** What a column of this type can hold. */
  predicate Fits(t: ColumnType, c: Cell) {
    match c
    case Null => true
    case Choice(v) => t.Choices? && v in t.values
    case Dated(kind, _) => t == Dates(kind)
    case Tree(j) => t.Plain? && (j.JList? || j.JObject?)
    case _ => t.Plain?
  }

  /** An object that carries the mark of bytes without being any. */
  predicate Disguised(c: Cell) {
    c.Tree? && c.json.JObject? && BYTES in c.json.fields
  }

  /** A value survives the file exactly when it is not an object with the bytes mark. */
  lemma ValueRoundTrip(f: Formats, t: ColumnType, c: Cell)
    requires Faithful(f) && Fits(t, c)
    ensures Deserialize(f, t, Serialize(f, c)) == Value(c) <==> !Disguised(c)
  {
  }

  /** Reading never gives such an object, whatever the file says. */
  lemma ReadIsNeverDisguised(f: Formats, t: ColumnType, j: Json)
    ensures Deserialize(f, t, j).Value? ==> !Disguised(Deserialize(f, t, j).value)
  {
  }

  /** What is read for a column is of its type, or else bytes, which no type is asked about. */
  lemma ReadFits(f: Formats, t: ColumnType, j: Json)
    ensures var r := Deserialize(f, t, j);
      && (r.Value? && !r.value.Blob? ==>
            match t
            case Choices(values) => r.value == Null || (r.value.Choice? && r.value.value in values)
            case Dates(kind) => r.value == Null || (r.value.Dated? && r.value.kind == kind)
            case Plain => !r.value.Choice? && !r.value.Dated?)
      && (r.Value? && !r.value.Blob? ==> Fits(t, r.value))
  {
  }

  const GRADE_TOKENS: set<string> := {
    "KG1", "KG2", "KG3", "G1", "G2", "G3", "G4", "G5", "G6", "G7", "G8", "G9", "G10", "G11", "G12"}

  /** What the service keeps in its JSON columns: a list of grades, or the classes of each. */
  predicate ServiceTree(j: Json) {
    match j
    case JList(items) => forall i :: 0 <= i < |items| ==> items[i].JText? && items[i].s in GRADE_TOKENS
    case JObject(fields) => fields.Keys <= GRADE_TOKENS
    case _ => false
  }

  lemma ServiceTreesArePlain(c: Cell)
    requires c.Tree? ==> ServiceTree(c.json)
    ensures !Disguised(c)
  {
    assert forall token :: token in GRADE_TOKENS ==> |token| <= 3;
    assert |BYTES| == 13;
  }
}
