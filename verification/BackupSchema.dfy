/** The service's own tables, by their keys and foreign keys, in an order they can be created
    in. */
module BackupSchema {
  import opened BackupCodec
  import opened Backup

  function Key(name: string): Column {
    Column(name, Plain, false, NoTarget)
  }

  /** A foreign key that may be empty, and one that may not. */
  function Maybe(name: string, table: nat): Column {
    Column(name, Plain, true, Refers(table))
  }

  function Always(name: string, table: nat): Column {
    Column(name, Plain, false, Refers(table))
  }

  const SCHOOLS: nat := 0
  const USERS: nat := 1
  const LESSONS: nat := 2
  const FILES: nat := 3
  const FAIR_SECTIONS: nat := 4

  const TABLES: seq<Table> := [
    Table("schools", [Key("id")]),
    Table("users", [Key("id"), Maybe("school_id", SCHOOLS)]),
    Table("lessons", [Key("id"), Maybe("school_id", SCHOOLS), Maybe("created_by", USERS)]),
    Table("uploaded_files", [Key("id"), Maybe("uploaded_by", USERS), Maybe("linked_lesson_id", LESSONS)]),
    Table("fair_sections", [Key("id"), Always("school_id", SCHOOLS)]),
    Table("login_throttles", [Key("ip")]),
    Table("reports", [Key("id"), Maybe("school_id", SCHOOLS), Maybe("requested_by", USERS)]),
    Table("security_logs", [Key("id"), Maybe("user_id", USERS), Maybe("school_id", SCHOOLS)]),
    Table("ai_usage", [Key("id"), Maybe("user_id", USERS), Maybe("school_id", SCHOOLS)]),
    Table("refresh_tokens", [Key("id"), Always("user_id", USERS)]),
    Table("slides", [Key("id"), Always("lesson_id", LESSONS)]),
    Table("lesson_assignments", [Key("id"), Always("lesson_id", LESSONS), Always("teacher_id", USERS)]),
    Table("progress", [Key("id"), Always("teacher_id", USERS), Always("lesson_id", LESSONS)]),
    Table("chat_messages", [Key("id"), Always("teacher_id", USERS), Always("lesson_id", LESSONS)]),
    Table("access_requests", [Key("id"), Always("teacher_id", USERS), Always("lesson_id", LESSONS), Maybe("resolved_by", USERS)]),
    Table("fair_projects", [Key("id"), Maybe("file_id", FILES), Maybe("section_id", FAIR_SECTIONS), Maybe("uploaded_by", USERS)]),
    Table("slide_readings", [Key("id"), Always("file_id", FILES)])]

  const SERVICE: Schema := Schema(TABLES, {"chat_messages"})

  // ----- its names are distinct -----

  /** The length of a name, its first letter and its middle one. */
  function Code(name: string): int
    requires name != ""
  {
    |name| * 1_000_000 + name[0] as int * 1_000 + name[(|name| - 1) / 2] as int
  }

  /** Which table a code belongs to. */
  function Place(code: int): nat {
    if code == 7115111 then 0
    else if code == 5117101 then 1
    else if code == 7108115 then 2
    else if code == 14117101 then 3
    else if code == 13102101 then 4
    else if code == 15108104 then 5
    else if code == 7114111 then 6
    else if code == 13115116 then 7
    else if code == 8097117 then 8
    else if code == 14114104 then 9
    else if code == 6115105 then 10
    else if code == 18108115 then 11
    else if code == 8112103 then 12
    else if code == 13099101 then 13
    else if code == 15097114 then 14
    else if code == 13102114 then 15
    else if code == 14115114 then 16
    else 17
  }

  lemma PlaceOf(t: nat)
    requires t < |TABLES|
    ensures TABLES[t].name != "" && Place(Code(TABLES[t].name)) == t
  {
    if t < 6 {
      FirstPlaces(t);
    } else if t < 12 {
      NextPlaces(t);
    } else {
      LastPlaces(t);
    }
  }

  lemma FirstPlaces(t: nat)
    requires t < 6
    ensures TABLES[t].name != "" && Place(Code(TABLES[t].name)) == t
  {
  }

  lemma NextPlaces(t: nat)
    requires 6 <= t < 12
    ensures TABLES[t].name != "" && Place(Code(TABLES[t].name)) == t
  {
  }

  lemma LastPlaces(t: nat)
    requires 12 <= t < |TABLES|
    ensures TABLES[t].name != "" && Place(Code(TABLES[t].name)) == t
  {
  }

  lemma NamesDistinct()
    ensures forall t, u :: 0 <= t < u < |TABLES| ==> TABLES[t].name != TABLES[u].name
  {
    forall t, u | 0 <= t < u < |TABLES| ensures TABLES[t].name != TABLES[u].name {
      PlaceOf(t);
      PlaceOf(u);
    }
  }

  /** Only the conversations are left out. */
  lemma OnlyChatExcluded(t: nat)
    requires t < |TABLES|
    ensures Excluded(SERVICE, t) <==> t == 13
  {
    PlaceOf(t);
    PlaceOf(13);
    assert TABLES[13].name == "chat_messages";
  }

  // ----- its keys come first -----

  lemma TableIsValid(t: nat)
    requires t < |TABLES|
    ensures ColumnsDistinct(TABLES[t].columns) && ParentsFirst(t)
  {
    if t < 6 {
      FirstTables(t);
    } else if t < 12 {
      NextTables(t);
    } else {
      LastTables(t);
    }
  }

  predicate ColumnsDistinct(columns: seq<Column>) {
    columns != [] && forall c, d :: 0 <= c < d < |columns| ==> columns[c].name != columns[d].name
  }

  /** Every foreign key is to an earlier table, and none to the conversations. */
  predicate ParentsFirst(t: nat)
    requires t < |TABLES|
  {
    forall c :: 0 <= c < |TABLES[t].columns| && TABLES[t].columns[c].target.Refers? ==>
      TABLES[t].columns[c].target.table < t && TABLES[t].columns[c].target.table <= FAIR_SECTIONS
  }

  lemma FirstTables(t: nat)
    requires t < 6
    ensures ColumnsDistinct(TABLES[t].columns) && ParentsFirst(t)
  {
  }

  lemma NextTables(t: nat)
    requires 6 <= t < 12
    ensures ColumnsDistinct(TABLES[t].columns) && ParentsFirst(t)
  {
  }

  lemma LastTables(t: nat)
    requires 12 <= t < |TABLES|
    ensures ColumnsDistinct(TABLES[t].columns) && ParentsFirst(t)
  {
  }

  /** The service's tables, and what it leaves out of a backup, are as a restore needs them:
      parents before children, and nothing in a backup refers to a conversation. */
  lemma ServiceSchemaIsSound()
    ensures ValidSchema(SERVICE)
  {
    NamesDistinct();
    forall t | 0 <= t < |TABLES| ensures ValidTable(SERVICE, t) {
      TableIsValid(t);
      OnlyChatExcluded(t);
      forall c | 0 <= c < |TABLES[t].columns| && TABLES[t].columns[c].target.Refers? ensures !Excluded(SERVICE, TABLES[t].columns[c].target.table) {
        OnlyChatExcluded(TABLES[t].columns[c].target.table);
      }
    }
    OnlyChatExcluded(USERS);
    assert TABLES[USERS].name == "users";
  }
}
