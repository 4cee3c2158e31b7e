/** The embedded migration files, and the schemas they lead through and back. */
module MigrationFiles {
  import opened Collections
  import opened Schema
  import Migrate

  // ---------- The files ----------

  const NOW := Column("TIMESTAMPTZ NOT NULL DEFAULT now()", None)
  const KEY := Column("UUID PRIMARY KEY", None)
  const TWO_STATES := "status IN ('pending', 'done')"
  const FOUR_STATES := "status IN ('pending', 'in_progress', 'done', 'cancelled')"

  const TASK_COLUMNS := map[
    Id := KEY,
    Title := Column("VARCHAR(200) NOT NULL", None),
    Description := Column("VARCHAR(2000) NOT NULL DEFAULT ''", None),
    Status := Column("VARCHAR(20) NOT NULL DEFAULT 'pending'", None),
    CreatedAt := NOW,
    UpdatedAt := NOW,
    Version := Column("INTEGER NOT NULL DEFAULT 1", None)]

  const USERS := Table(map[
    Id := KEY,
    Email := Column("VARCHAR(320) NOT NULL UNIQUE", None),
    PasswordHash := Column("TEXT NOT NULL", None),
    CreatedAt := NOW,
    UpdatedAt := NOW], map[])

  const SESSIONS := Table(map[
    TokenHash := Column("TEXT PRIMARY KEY", None),
    UserId := Column("UUID NOT NULL ON DELETE CASCADE", Some(Users)),
    ExpiresAt := Column("TIMESTAMPTZ NOT NULL", None),
    CreatedAt := NOW], map[])

  const ATTACHMENTS := Table(map[
    Id := KEY,
    TaskId := Column("UUID NOT NULL ON DELETE CASCADE", Some(Tasks)),
    OriginalFilename := Column("VARCHAR(255) NOT NULL", None),
    StorageKey := Column("UUID NOT NULL UNIQUE", None),
    ContentType := Column("VARCHAR(255) NOT NULL", None),
    SizeBytes := Column("BIGINT NOT NULL", None),
    CreatedAt := NOW], map[SizeCheck := "size_bytes >= 0"])

  const BY_CREATION := Index(Tasks, [CreatedAt, Id])
  const BY_USER := Index(Tasks, [UserId, CreatedAt, Id])
  const OWNER := Column("UUID NOT NULL", Some(Users))
  const PRIORITY := Column(
    "VARCHAR(10) NOT NULL DEFAULT 'medium' CHECK (priority IN ('low', 'medium', 'high'))", None)

  const TASKS_1 := Table(TASK_COLUMNS, map[TaskStatusCheck := TWO_STATES])
  const TASKS_4 := Table(TASK_COLUMNS[UserId := OWNER], map[TaskStatusCheck := TWO_STATES])
  const TASKS_5 := Table(TASK_COLUMNS[UserId := OWNER][Priority := PRIORITY],
                         map[TaskStatusCheck := FOUR_STATES])

  const M1 := Migration(
    [CreateTable(Tasks, TASKS_1), CreateIndex(TasksByCreation, BY_CREATION)],
    [DropTableIfExists(Tasks)])

  const M2 := Migration([CreateTable(Users, USERS)], [DropTableIfExists(Users)])

  const M3 := Migration([CreateTable(Sessions, SESSIONS)], [DropTableIfExists(Sessions)])

  const M4 := Migration(
    [AddColumn(Tasks, UserId, OWNER), DropIndexIfExists(TasksByCreation),
     CreateIndex(TasksByUser, BY_USER)],
    [DropIndexIfExists(TasksByUser), CreateIndex(TasksByCreation, BY_CREATION),
     DropColumn(Tasks, UserId)])

  const M5 := Migration(
    [DropCheck(Tasks, TaskStatusCheck), AddCheck(Tasks, TaskStatusCheck, FOUR_STATES),
     AddColumn(Tasks, Priority, PRIORITY)],
    [DropColumn(Tasks, Priority), DropCheck(Tasks, TaskStatusCheck),
     AddCheck(Tasks, TaskStatusCheck, TWO_STATES)])

  const M6 := Migration(
    [CreateIndex(SessionsByExpiry, Index(Sessions, [ExpiresAt])),
     CreateIndex(SessionsByUser, Index(Sessions, [UserId]))],
    [DropIndexIfExists(SessionsByExpiry), DropIndexIfExists(SessionsByUser)])

  const M7 := Migration(
    [CreateTable(Attachments, ATTACHMENTS),
     CreateIndex(AttachmentsByTask, Index(Attachments, [TaskId, CreatedAt, Id]))],
    [DropTableIfExists(Attachments)])

  const M8 := Migration(
    [CreateIndex(SessionsByUserAndCreation, Index(Sessions, [UserId, CreatedAt]))],
    [DropIndexIfExists(SessionsByUserAndCreation)])

  const FILES := [M1, M2, M3, M4, M5, M6, M7, M8]

  // ---------- The files are reversible ----------

  const S1 := Catalogue(map[Tasks := TASKS_1], map[TasksByCreation := BY_CREATION])
  const S2 := Catalogue(S1.tables[Users := USERS], S1.indexes)
  const S3 := Catalogue(S2.tables[Sessions := SESSIONS], S2.indexes)
  const S4 := Catalogue(S3.tables[Tasks := TASKS_4], map[TasksByUser := BY_USER])
  const S5 := Catalogue(S4.tables[Tasks := TASKS_5], S4.indexes)
  const S6 := Catalogue(S5.tables, S5.indexes[SessionsByExpiry := Index(Sessions, [ExpiresAt])]
                                             [SessionsByUser := Index(Sessions, [UserId])])
  const S7 := Catalogue(S6.tables[Attachments := ATTACHMENTS],
                        S6.indexes[AttachmentsByTask := Index(Attachments, [TaskId, CreatedAt, Id])])
  const S8 := Catalogue(S7.tables, S7.indexes[SessionsByUserAndCreation :=
                                                Index(Sessions, [UserId, CreatedAt])])

  lemma Link1()
    ensures Links(EMPTY, M1, S1)
  {
    Two(EMPTY, M1.up[0], M1.up[1]);
    One(S1, M1.down[0]);
    DropTakesBack(EMPTY, Tasks, TASKS_1, S1.indexes);
    assert S1.tables == EMPTY.tables[Tasks := TASKS_1];
    assert S1.indexes == EMPTY.indexes + S1.indexes == EMPTY.indexes[TasksByCreation := BY_CREATION];
  }

  lemma Link2()
    ensures Links(S1, M2, S2)
  {
    One(S1, M2.up[0]);
    Created(S1, Users, USERS);
    One(S2, M2.down[0]);
    DropTakesBack(S1, Users, USERS, map[]);
    assert S1.indexes + map[] == S1.indexes;
  }

  lemma SecondTables()
    ensures S2.tables.Keys == {Tasks, Users} && S2.indexes == map[TasksByCreation := BY_CREATION]
    ensures !ReferencedElsewhere(S2, Sessions)
  {
    assert S2.tables[Tasks] == TASKS_1 && S2.tables[Users] == USERS;
    assert !References(TASKS_1, Sessions) && !References(USERS, Sessions);
  }

  lemma Link3()
    ensures Links(S2, M3, S3)
  {
    SecondTables();
    One(S2, M3.up[0]);
    One(S3, M3.down[0]);
    DropTakesBack(S2, Sessions, SESSIONS, map[]);
    assert S2.indexes + map[] == S2.indexes;
  }

  lemma TasksAt3And4()
    ensures Tasks in S3.tables && S3.tables[Tasks] == TASKS_1
    ensures S3.indexes == map[TasksByCreation := BY_CREATION]
    ensures S4 == Catalogue(S3.tables[Tasks := TASKS_4], map[TasksByUser := BY_USER])
    ensures Tasks in S4.tables && S4.tables[Tasks] == TASKS_4
  {
  }

  lemma Link4()
    ensures Links(S3, M4, S4)
  {
    TasksAt3And4();
    FreshColumn(S3, Tasks, UserId, OWNER);
    var mid := WithTable(S3, Tasks, TASKS_4);
    assert Covered(mid, BY_USER) && Covered(mid, BY_CREATION);
    Three(S3, M4.up[0], M4.up[1], M4.up[2]);
    ExchangedIndex(mid, TasksByCreation, BY_CREATION, TasksByUser, BY_USER);
    ExchangedIndex(S4, TasksByUser, BY_USER, TasksByCreation, BY_CREATION);
    ThreeAsTwoAndOne(S4, M4.down[0], M4.down[1], M4.down[2]);
  }

  lemma Link5()
    ensures Links(S4, M5, S5)
  {
    TasksAt3And4();
    ReplacedCheck(S4, Tasks, TaskStatusCheck, TWO_STATES, FOUR_STATES);
    var mid := WithTable(S4, Tasks, TASKS_4.(checks := TASKS_5.checks));
    ThreeAsTwoAndOne(S4, M5.up[0], M5.up[1], M5.up[2]);
    FreshColumn(mid, Tasks, Priority, PRIORITY);
    Overwritten(S4, Tasks, mid.tables[Tasks], TASKS_5);
    Three(S5, M5.down[0], M5.down[1], M5.down[2]);
    ReplacedCheck(mid, Tasks, TaskStatusCheck, FOUR_STATES, TWO_STATES);
    Overwritten(S4, Tasks, mid.tables[Tasks], TASKS_4);
    Unchanged(S4, Tasks);
  }

  lemma SessionsAt5()
    ensures Sessions in S5.tables && S5.tables[Sessions] == SESSIONS
    ensures S5.indexes == map[TasksByUser := BY_USER]
    ensures S5.tables.Keys == {Tasks, Users, Sessions}
  {
  }

  lemma Link6()
    ensures Links(S5, M6, S6)
  {
    SessionsAt5();
    var mid := S5.(indexes := S5.indexes[SessionsByExpiry := Index(Sessions, [ExpiresAt])]);
    Two(S5, M6.up[0], M6.up[1]);
    FreshIndex(S5, SessionsByExpiry, Index(Sessions, [ExpiresAt]));
    FreshIndex(mid, SessionsByUser, Index(Sessions, [UserId]));
    Two(S6, M6.down[0], M6.down[1]);
    Swapped(S5.indexes, SessionsByExpiry, Index(Sessions, [ExpiresAt]),
            SessionsByUser, Index(Sessions, [UserId]));
  }

  lemma SixthTables()
    ensures S6.tables.Keys == {Tasks, Users, Sessions}
    ensures S6.tables[Tasks] == TASKS_5 && S6.tables[Users] == USERS
    ensures S6.tables[Sessions] == SESSIONS
  {
  }

  lemma TablesReferenceUsersAlone()
    ensures !References(TASKS_5, Attachments) && !References(USERS, Attachments)
    ensures !References(SESSIONS, Attachments)
  {
  }

  lemma SixthIndexes()
    ensures forall i :: i in S6.indexes ==> S6.indexes[i].table != Attachments
    ensures AttachmentsByTask !in S6.indexes
  {
  }

  lemma NothingReferencesAttachments()
    ensures Attachments !in S6.tables && !ReferencedElsewhere(S6, Attachments)
  {
    SixthTables();
    TablesReferenceUsersAlone();
    forall t | t in S6.tables ensures !References(S6.tables[t], Attachments) {
      assert t in {Tasks, Users, Sessions};
    }
  }

  const BY_TASK := Index(Attachments, [TaskId, CreatedAt, Id])

  lemma AttachmentsCreated()
    ensures Exec(S6, M7.up[0]) == Some(WithTable(S6, Attachments, ATTACHMENTS))
  {
    SixthTables();
    assert Resolved(S6.tables.Keys + {Attachments}, ATTACHMENTS);
    Created(S6, Attachments, ATTACHMENTS);
  }

  lemma Link7Up()
    ensures ExecAll(S6, M7.up) == Some(S7)
  {
    AttachmentsCreated();
    SixthIndexes();
    Two(S6, M7.up[0], M7.up[1]);
    var mid := WithTable(S6, Attachments, ATTACHMENTS);
    assert Covered(mid, BY_TASK);
    FreshIndex(mid, AttachmentsByTask, BY_TASK);
  }

  lemma Link7Down()
    ensures ExecAll(S7, M7.down) == Some(S6)
  {
    NothingReferencesAttachments();
    SixthIndexes();
    One(S7, M7.down[0]);
    OneMoreIndex(S6.indexes, AttachmentsByTask, BY_TASK);
    DropTakesBack(S6, Attachments, ATTACHMENTS, map[AttachmentsByTask := BY_TASK]);
  }

  lemma Link8()
    ensures Links(S7, M8, S8)
  {
    SessionsAt5();
    One(S7, M8.up[0]);
    One(S8, M8.down[0]);
    assert Sessions in S7.tables && S7.tables[Sessions] == SESSIONS;
    FreshIndex(S7, SessionsByUserAndCreation, Index(Sessions, [UserId, CreatedAt]));
  }

  lemma EightLinked(
    m1: Migration, m2: Migration, m3: Migration, m4: Migration, m5: Migration, m6: Migration,
    m7: Migration, m8: Migration, s1: Catalogue, s2: Catalogue, s3: Catalogue, s4: Catalogue,
    s5: Catalogue, s6: Catalogue, s7: Catalogue, s8: Catalogue)
    requires Links(EMPTY, m1, s1) && Links(s1, m2, s2) && Links(s2, m3, s3) && Links(s3, m4, s4)
    requires Links(s4, m5, s5) && Links(s5, m6, s6) && Links(s6, m7, s7) && Links(s7, m8, s8)
    ensures var files := [m1, m2, m3, m4, m5, m6, m7, m8];
            Reversible(files) && Fold(files, |files|) == Some(s8)
  {
    var files := [m1, m2, m3, m4, m5, m6, m7, m8];
    var states := [EMPTY, s1, s2, s3, s4, s5, s6, s7, s8];
    LinkedFold(files, states, 8);
  }

  /** The eight embedded migrations run in order, and each down script takes its up script back. */
  lemma FilesAreReversible()
    ensures Reversible(FILES) && Fold(FILES, |FILES|) == Some(S8)
  {
    Link1();
    Link2();
    Link3();
    Link4();
    Link5();
    Link6();
    Link7Up();
    Link7Down();
    Link8();
    EightLinked(M1, M2, M3, M4, M5, M6, M7, M8, S1, S2, S3, S4, S5, S6, S7, S8);
  }

  // ---------- What the runner makes of them ----------

  /** The embedded files meet what all of the above asks of them. */
  lemma {:induction false} EmbeddedFilesRestore(actions: seq<Migrate.Action>, k: nat)
    requires Migrate.Run(FILES, Migrate.INIT, actions).Some?
    requires var s := Migrate.Run(FILES, Migrate.INIT, actions).value; s.boots == map[] && k <= |s.applied|
    ensures var s := Migrate.Run(FILES, Migrate.INIT, actions).value;
            && Migrate.Run(FILES, s, Migrate.Downs(k)).Some?
            && |Migrate.Run(FILES, s, Migrate.Downs(k)).value.applied| == |s.applied| - k
            && Migrate.SchemaMatches(FILES, Migrate.Run(FILES, s, Migrate.Downs(k)).value)
  {
    FilesAreReversible();
    Migrate.RunKeepsInv(FILES, actions);
    Migrate.DownsRestore(FILES, Migrate.Run(FILES, Migrate.INIT, actions).value, k);
  }
}
