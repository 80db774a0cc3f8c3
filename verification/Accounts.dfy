/** The account table: a bounded array that behaves as a finite map from names, its store on
    disk, and the session. `Table` is the program with its arrays; `Db` is its state as a value,
    with the runs and their laws. */
module Accounts {
  import opened Text

  const MAX_USERS: nat := 8
  const TEXT_MAX: nat := 31
  const STORE_MAGIC: int := 0x4655_5352

  const ADMIN: Str := Lit("admin")
  const FISIX: Str := Lit("fisix")
  const NOBODY: Str := Lit("nobody")

  datatype Account = Account(name: Str, password: Str, admin: bool)

  /** Static memory starts zeroed. */
  const BLANK_ACCOUNT: Account := Account([], [], false)

  /** The file on disk: none, one too short for the structure, or a whole one. */
  datatype Store = NoFile | Short | Image(magic: int, count: int, entries: seq<Account>)

  predicate Loadable(s: Store) {
    s.Image? && s.magic == STORE_MAGIC && 0 < s.count <= MAX_USERS && |s.entries| == MAX_USERS
  }

  /** A text the table accepts: not empty, no space, at most 31 units. */
  predicate Acceptable(s: Str) {
    0 < |s| <= TEXT_MAX && SPACE !in s
  }

  /** What `copy` keeps of a text. */
  function Kept(s: Str): Str {
    Take(s, TEXT_MAX)
  }

  // ----- The state as a value

  datatype Db = Db(slots: seq<Account>, count: int, session: int, store: Store)

  predicate ValidDb(db: Db) {
    |db.slots| == MAX_USERS && 0 <= db.count <= MAX_USERS && -1 <= db.session < db.count
  }

  /** The accounts in use, in the order they were made. */
  function Visible(db: Db): seq<Account>
    requires ValidDb(db)
  {
    db.slots[..db.count]
  }

  predicate IsAdmin(db: Db)
    requires ValidDb(db)
  {
    db.session >= 0 && db.slots[db.session].admin
  }

  /** The first account of that name from `i` on, or -1. */
  function FindName(accounts: seq<Account>, name: Str, i: nat := 0): (r: int)
    requires i <= |accounts|
    ensures r == -1 || i <= r < |accounts|
    ensures r >= 0 ==> accounts[r].name == name
    ensures r < 0 ==> forall k :: i <= k < |accounts| ==> accounts[k].name != name
    decreases |accounts| - i
  {
    if i == |accounts| then -1
    else if accounts[i].name == name then i
    else FindName(accounts, name, i + 1)
  }

  predicate Opens(account: Account, name: Str, password: Str) {
    account.name == name && account.password == password
  }

  /** The first account from `i` on that the name and the password open, or -1. */
  function FindLogin(accounts: seq<Account>, name: Str, password: Str, i: nat := 0): (r: int)
    requires i <= |accounts|
    ensures r == -1 || i <= r < |accounts|
    ensures r >= 0 ==> Opens(accounts[r], name, password)
    ensures r < 0 ==> forall k :: i <= k < |accounts| ==> !Opens(accounts[k], name, password)
    decreases |accounts| - i
  {
    if i == |accounts| then -1
    else if Opens(accounts[i], name, password) then i
    else FindLogin(accounts, name, password, i + 1)
  }

  /** Writing the store: it either succeeds or leaves the file in any condition. */
  datatype Disk = Works | Breaks(left: Store)

  function Saved(db: Db, disk: Disk): Db {
    db.(store := if disk.Works? then Image(STORE_MAGIC, db.count, db.slots) else disk.left)
  }

  /** Start-up over the memory found in `slots`. */
  function Init(slots: seq<Account>, store: Store): Db
    requires |slots| == MAX_USERS
  {
    if Loadable(store) then Db(store.entries, store.count, -1, store)
    else Db(slots[0 := Account(ADMIN, FISIX, true)], 1, -1, store)
  }

  function Login(db: Db, name: Str, password: Str): (Db, bool)
    requires ValidDb(db)
  {
    var i := FindLogin(Visible(db), name, password);
    if i >= 0 then (db.(session := i), true) else (db, false)
  }

  /** Whether `add` gets as far as changing the table. */
  predicate CanAdd(db: Db, name: Str, password: Str)
    requires ValidDb(db)
  {
    && IsAdmin(db) && Acceptable(name) && Acceptable(password) && db.count < MAX_USERS
    && FindName(Visible(db), name) < 0
  }

  function Add(db: Db, name: Str, password: Str, disk: Disk): (Db, bool)
    requires ValidDb(db)
  {
    if CanAdd(db, name, password) then
      var slots := db.slots[db.count := Account(name, password, false)];
      (Saved(db.(slots := slots, count := db.count + 1), disk), disk.Works?)
    else (db, false)
  }

  predicate CanChange(db: Db, oldPassword: Str, newPassword: Str)
    requires ValidDb(db)
  {
    db.session >= 0 && db.slots[db.session].password == oldPassword && Acceptable(newPassword)
  }

  function ChangePassword(db: Db, oldPassword: Str, newPassword: Str, disk: Disk): (Db, bool)
    requires ValidDb(db)
  {
    if CanChange(db, oldPassword, newPassword) then
      var account := db.slots[db.session].(password := newPassword);
      (Saved(db.(slots := db.slots[db.session := account]), disk), disk.Works?)
    else (db, false)
  }

  // ----- The table as a map

  function ToMap(accounts: seq<Account>): map<Str, (Str, bool)> {
    if accounts == [] then map[]
    else
      var last := accounts[|accounts| - 1];
      ToMap(accounts[..|accounts| - 1])[last.name := (last.password, last.admin)]
  }

  ghost predicate DistinctNames(accounts: seq<Account>) {
    forall i, j :: 0 <= i < j < |accounts| ==> accounts[i].name != accounts[j].name
  }

  lemma {:induction false} MapHolds(accounts: seq<Account>, i: nat)
    requires DistinctNames(accounts) && i < |accounts|
    ensures accounts[i].name in ToMap(accounts)
    ensures ToMap(accounts)[accounts[i].name] == (accounts[i].password, accounts[i].admin)
    decreases |accounts|
  {
    var n := |accounts| - 1;
    if i < n {
      MapHolds(accounts[..n], i);
    }
  }

  /** The names in the map are the names in the table, and each stands for its own account. */
  lemma NameIsKey(accounts: seq<Account>, name: Str)
    requires DistinctNames(accounts)
    ensures var i := FindName(accounts, name);
            && (name in ToMap(accounts) <==> i >= 0)
            && (i >= 0 ==> ToMap(accounts)[name] == (accounts[i].password, accounts[i].admin))
  {
  }

  // ----- Invariant and runs

  ghost predicate WellFormed(accounts: seq<Account>) {
    && 0 < |accounts| <= MAX_USERS && DistinctNames(accounts)
    && forall i :: 0 <= i < |accounts| ==> Acceptable(accounts[i].name) && Acceptable(accounts[i].password)
  }

  ghost predicate Inv(db: Db) {
    ValidDb(db) && WellFormed(Visible(db))
  }

  /** No store, or one that this program has written. */
  ghost predicate GoodStore(s: Store) {
    s == NoFile || (Loadable(s) && WellFormed(s.entries[..s.count]))
  }

  /** The table in freshly zeroed memory. */
  function Zeroed(): (slots: seq<Account>)
    ensures |slots| == MAX_USERS
  {
    seq(MAX_USERS, _ => BLANK_ACCOUNT)
  }

  /** Switching off and starting again. */
  function Reboot(db: Db): Db {
    Init(Zeroed(), db.store)
  }

  datatype Op =
    | DoLogin(name: Str, password: Str)
    | DoAdd(name: Str, password: Str, disk: Disk)
    | DoChange(oldPassword: Str, newPassword: Str, disk: Disk)
    | DoReboot

  function Step(db: Db, op: Op): Db
    requires ValidDb(db)
  {
    match op
    case DoLogin(name, password) => Login(db, name, password).0
    case DoAdd(name, password, disk) => Add(db, name, password, disk).0
    case DoChange(o, n, disk) => ChangePassword(db, o, n, disk).0
    case DoReboot => Reboot(db)
  }

  lemma StepIsValid(db: Db, op: Op)
    requires ValidDb(db)
    ensures ValidDb(Step(db, op))
  {
  }

  function Run(db: Db, ops: seq<Op>): (r: Db)
    requires ValidDb(db)
    ensures ValidDb(r)
    decreases |ops|
  {
    if ops == [] then db else
      StepIsValid(db, ops[0]);
      Run(Step(db, ops[0]), ops[1..])
  }

  predicate SavesWork(op: Op) {
    (op.DoAdd? || op.DoChange?) ==> op.disk.Works?
  }

  /** An operation whose save works, or breaks and leaves a good file behind. */
  ghost predicate GoodDisk(op: Op) {
    (op.DoAdd? || op.DoChange?) && op.disk.Breaks? ==> GoodStore(op.disk.left)
  }

  ghost predicate NoReboot(ops: seq<Op>) {
    forall i :: 0 <= i < |ops| ==> !ops[i].DoReboot?
  }

  ghost predicate AllGoodDisks(ops: seq<Op>) {
    forall i :: 0 <= i < |ops| ==> GoodDisk(ops[i])
  }

  predicate AllSavesWork(ops: seq<Op>) {
    forall i :: 0 <= i < |ops| ==> SavesWork(ops[i])
  }

  lemma InitInv(slots: seq<Account>, store: Store)
    requires |slots| == MAX_USERS && GoodStore(store)
    ensures Inv(Init(slots, store)) && Init(slots, store).session == -1
  {
  }

  lemma StepInv(db: Db, op: Op)
    requires Inv(db) && (op.DoReboot? ==> GoodStore(db.store))
    ensures ValidDb(Step(db, op)) && Inv(Step(db, op))
  {
    var after := Step(db, op);
    if op.DoReboot? {
      InitInv(Zeroed(), db.store);
    } else if op.DoAdd? && CanAdd(db, op.name, op.password) {
      assert Visible(after) == Visible(db) + [Account(op.name, op.password, false)];
    } else if op.DoChange? && CanChange(db, op.oldPassword, op.newPassword) {
      assert Visible(after) == Visible(db)[db.session := Visible(db)[db.session].(password := op.newPassword)];
    } else {
      assert Visible(after) == Visible(db);
    }
  }

  /** A store that this program writes is one that it may start from. */
  lemma StepStore(db: Db, op: Op)
    requires Inv(db) && GoodStore(db.store) && GoodDisk(op)
    ensures GoodStore(Step(db, op).store)
  {
    StepInv(db, op);
  }

  /** What no later operation takes back. */
  ghost predicate Grows(before: Db, after: Db)
    requires ValidDb(before) && ValidDb(after)
  {
    && before.count <= after.count
    && forall i :: 0 <= i < before.count ==>
         after.slots[i].name == before.slots[i].name && after.slots[i].admin == before.slots[i].admin
  }

  lemma StepGrows(db: Db, op: Op)
    requires ValidDb(db) && (op.DoReboot? ==> Durable(db))
    ensures ValidDb(Step(db, op)) && Grows(db, Step(db, op))
    ensures !op.DoReboot? && db.session >= 0 ==> Step(db, op).session >= 0
  {
    if op.DoReboot? {
      assert forall i :: 0 <= i < db.count ==> Visible(Reboot(db))[i] == Visible(db)[i];
    }
  }

  /** Over every run without a reboot, whatever the disk does: the table stays well formed,
      existing names and admin flags never change, the count never falls, and a session once
      opened never closes. */
  lemma {:induction false} RunKeeps(db: Db, ops: seq<Op>)
    requires Inv(db) && NoReboot(ops)
    ensures Inv(Run(db, ops)) && Grows(db, Run(db, ops))
    ensures db.session >= 0 ==> Run(db, ops).session >= 0
    decreases |ops|
  {
    if ops != [] {
      StepInv(db, ops[0]);
      StepGrows(db, ops[0]);
      RunKeeps(Step(db, ops[0]), ops[1..]);
    }
  }

  /** Over every run with any number of reboots whose failed saves leave a good file: the table
      stays well formed, and so does the store. */
  lemma {:induction false} LifeKeeps(db: Db, ops: seq<Op>)
    requires Inv(db) && GoodStore(db.store) && AllGoodDisks(ops)
    ensures Inv(Run(db, ops)) && GoodStore(Run(db, ops).store)
    decreases |ops|
  {
    if ops != [] {
      StepInv(db, ops[0]);
      StepStore(db, ops[0]);
      LifeKeeps(Step(db, ops[0]), ops[1..]);
    }
  }

  /** Every state reached from a start-up with a good store satisfies the invariant: without a
      reboot in any case, and with reboots if no failed save has left a bad file. */
  lemma ReachableInv(slots: seq<Account>, store: Store, ops: seq<Op>)
    requires |slots| == MAX_USERS && GoodStore(store) && (NoReboot(ops) || AllGoodDisks(ops))
    ensures ValidDb(Init(slots, store)) && Inv(Run(Init(slots, store), ops))
    ensures AllGoodDisks(ops) ==> GoodStore(Run(Init(slots, store), ops).store)
  {
    InitInv(slots, store);
    if AllGoodDisks(ops) {
      LifeKeeps(Init(slots, store), ops);
    } else {
      RunKeeps(Init(slots, store), ops);
    }
  }

  /** A start-up shows the stored accounts if the file is a whole one with the program's magic number
      and between 1 and 8 accounts, and the one default account if it is anything else. */
  lemma StartUp(slots: seq<Account>, store: Store)
    requires |slots| == 8
    ensures var db := Init(slots, store);
            var taken := store.Image? && store.magic == 0x4655_5352 && 1 <= store.count <= 8 && |store.entries| == 8;
            && ValidDb(db) && db.session == -1 && db.store == store
            && Visible(db) == if taken then store.entries[..store.count]
                              else [Account(Lit("admin"), Lit("fisix"), true)]
  {
  }

  // ----- Persistence

  /** What the next start-up will show is what is shown now. */
  ghost predicate Durable(db: Db) {
    ValidDb(db) && ValidDb(Reboot(db)) && Visible(Reboot(db)) == Visible(db)
  }

  lemma StepDurable(db: Db, op: Op)
    requires Inv(db) && GoodStore(db.store) && Durable(db) && SavesWork(op)
    ensures ValidDb(Step(db, op)) && Durable(Step(db, op))
  {
    if op.DoReboot? {
      InitInv(Zeroed(), db.store);
      assert Visible(Reboot(Reboot(db))) == Visible(Reboot(db));
    }
  }

  /** Over every run with any number of reboots in which every save worked: what is shown is what
      the next start-up will show, and names, admin flags and the count only grow. */
  lemma {:induction false} LifeIsDurable(db: Db, ops: seq<Op>)
    requires Inv(db) && GoodStore(db.store) && Durable(db) && AllSavesWork(ops)
    ensures Inv(Run(db, ops)) && GoodStore(Run(db, ops).store)
    ensures Durable(Run(db, ops)) && Grows(db, Run(db, ops))
    decreases |ops|
  {
    if ops != [] {
      StepInv(db, ops[0]);
      StepStore(db, ops[0]);
      StepDurable(db, ops[0]);
      StepGrows(db, ops[0]);
      LifeIsDurable(Step(db, ops[0]), ops[1..]);
    }
  }

  lemma InitDurable(slots: seq<Account>, store: Store)
    requires |slots| == MAX_USERS && GoodStore(store)
    ensures Durable(Init(slots, store))
  {
    assert Visible(Reboot(Init(slots, store))) == Visible(Init(slots, store));
  }

  /** After any run in which every save worked, with any number of reboots in it, starting again
      shows the same accounts, with nobody logged in. */
  lemma {:induction false} RebootRestores(slots: seq<Account>, store: Store, ops: seq<Op>)
    requires |slots| == MAX_USERS && GoodStore(store) && AllSavesWork(ops)
    ensures ValidDb(Init(slots, store))
    ensures var db := Run(Init(slots, store), ops);
            && ValidDb(Reboot(db)) && Visible(Reboot(db)) == Visible(db) && Reboot(db).session == -1
            && Inv(Reboot(db)) && GoodStore(Reboot(db).store)
  {
    InitInv(slots, store);
    InitDurable(slots, store);
    LifeIsDurable(Init(slots, store), ops);
    InitInv(Zeroed(), Run(Init(slots, store), ops).store);
  }

  // ----- The operations on the map

  lemma ToMapSnoc(accounts: seq<Account>, a: Account)
    ensures ToMap(accounts + [a]) == ToMap(accounts)[a.name := (a.password, a.admin)]
  {
  }

  lemma {:induction false} ToMapUpdate(accounts: seq<Account>, i: nat, password: Str)
    requires DistinctNames(accounts) && i < |accounts|
    ensures ToMap(accounts[i := accounts[i].(password := password)])
         == ToMap(accounts)[accounts[i].name := (password, accounts[i].admin)]
    decreases |accounts|
  {
    var n := |accounts| - 1;
    var changed := accounts[i := accounts[i].(password := password)];
    if i == n {
      assert changed[..n] == accounts[..n];
    } else {
      ToMapUpdate(accounts[..n], i, password);
      assert changed[..n] == accounts[..n][i := accounts[..n][i].(password := password)];
    }
  }

  /** Login succeeds exactly when the map holds that password under that name, and then selects
      the one account of that name. */
  lemma LoginIsLookup(db: Db, name: Str, password: Str)
    requires Inv(db)
    ensures var (after, ok) := Login(db, name, password); var users := ToMap(Visible(db));
            && (ok <==> name in users && users[name].0 == password)
            && (ok ==> after.session == FindName(Visible(db), name) && after == db.(session := after.session))
            && (!ok ==> after == db)
  {
    var accounts := Visible(db);
    NameIsKey(accounts, name);
    var i, j := FindLogin(accounts, name, password), FindName(accounts, name);
    assert i >= 0 && j >= 0 ==> i == j;
  }

  /** `add` is insertion of an absent key by an admin's session, while there are fewer than eight and
      both texts have 1 to 31 units without a space; it reports success only if it also could be
      saved. */
  lemma AddIsInsert(db: Db, name: Str, password: Str, disk: Disk)
    requires Inv(db)
    ensures var (after, ok) := Add(db, name, password, disk); var users := ToMap(Visible(db));
            var enters := db.session >= 0 && db.slots[db.session].admin && db.count < 8
                          && 1 <= |name| <= 31 && 32 !in name && 1 <= |password| <= 31 && 32 !in password
                          && name !in users;
            && ValidDb(after) && after.session == db.session
            && ToMap(Visible(after)) == (if enters then users[name := (password, false)] else users)
            && (ok <==> enters && disk.Works?)
            && (!enters ==> after == db)
  {
    NameIsKey(Visible(db), name);
    var after := Add(db, name, password, disk).0;
    if CanAdd(db, name, password) {
      assert Visible(after) == Visible(db) + [Account(name, password, false)];
      ToMapSnoc(Visible(db), Account(name, password, false));
    }
  }

  /** Changing a password is an update of the session's own key and no other, given its present
      password and a new one of 1 to 31 units without a space. */
  lemma ChangeIsUpdate(db: Db, oldPassword: Str, newPassword: Str, disk: Disk)
    requires Inv(db)
    ensures var (after, ok) := ChangePassword(db, oldPassword, newPassword, disk); var users := ToMap(Visible(db));
            && ValidDb(after) && after.session == db.session
            && (db.session >= 0 ==> db.slots[db.session].name in users)
            && var changes := db.session >= 0 && users[db.slots[db.session].name].0 == oldPassword
                              && 1 <= |newPassword| <= 31 && 32 !in newPassword;
            && (changes ==>
                  var user := db.slots[db.session].name;
                  ToMap(Visible(after)) == users[user := (newPassword, users[user].1)])
            && (ok <==> changes && disk.Works?)
            && (!changes ==> after == db)
  {
    var after := ChangePassword(db, oldPassword, newPassword, disk).0;
    if db.session >= 0 {
      var i := db.session;
      MapHolds(Visible(db), i);
      assert Visible(db)[i] == db.slots[i];
      if CanChange(db, oldPassword, newPassword) {
        assert Visible(after) == Visible(db)[i := Visible(db)[i].(password := newPassword)];
        ToMapUpdate(Visible(db), i, newPassword);
      }
    }
  }

  /** An operation that reports failure leaves the visible table as it was, except when the
      account was entered or the password changed and only the save failed. */
  lemma FailureIsNotRollback(
    db: Db, name: Str, password: Str, oldPassword: Str, newPassword: Str, disk: Disk)
    requires Inv(db)
    ensures var (added, ok) := Add(db, name, password, disk);
            ValidDb(added) && (!ok ==> (Visible(added) == Visible(db) <==> !CanAdd(db, name, password)))
    ensures var (changed, ok) := ChangePassword(db, oldPassword, newPassword, disk);
            ValidDb(changed) && (!ok ==>
              (Visible(changed) == Visible(db) <==>
                 !CanChange(db, oldPassword, newPassword) || oldPassword == newPassword))
  {
  }

  // ----- The abstract machine

  datatype Session = Nobody | User(name: Str)

  /** A finite map with room for eight names, and the name of the session. */
  datatype Abstract = Abstract(users: map<Str, (Str, bool)>, session: Session) {
    predicate Admin() {
      session.User? && session.name in users && users[session.name].1
    }
  }

  function AbstractStep(a: Abstract, op: Op): Abstract {
    match op
    case DoLogin(name, password) =>
      if name in a.users && a.users[name].0 == password then a.(session := User(name)) else a
    case DoAdd(name, password, _) =>
      if a.Admin() && Acceptable(name) && Acceptable(password) && |a.users| < MAX_USERS && name !in a.users
      then a.(users := a.users[name := (password, false)]) else a
    case DoChange(o, n, _) =>
      if a.session.User? && a.session.name in a.users && a.users[a.session.name].0 == o && Acceptable(n)
      then a.(users := a.users[a.session.name := (n, a.users[a.session.name].1)]) else a
    case DoReboot => a.(session := Nobody)
  }

  function AbstractRun(a: Abstract, ops: seq<Op>): Abstract
    decreases |ops|
  {
    if ops == [] then a else AbstractRun(AbstractStep(a, ops[0]), ops[1..])
  }

  /** The abstract state that a table stands for. */
  function Abstraction(db: Db): Abstract
    requires ValidDb(db)
  {
    Abstract(ToMap(Visible(db)), if db.session < 0 then Nobody else User(db.slots[db.session].name))
  }

  lemma {:induction false} MapSize(accounts: seq<Account>)
    requires DistinctNames(accounts)
    ensures |ToMap(accounts)| == |accounts|
    decreases |accounts|
  {
    if accounts != [] {
      var n := |accounts| - 1;
      MapSize(accounts[..n]);
      NameIsKey(accounts[..n], accounts[n].name);
    }
  }

  /** What the session's name stands for. */
  lemma SessionIsKey(db: Db)
    requires Inv(db) && db.session >= 0
    ensures var account := db.slots[db.session]; var users := ToMap(Visible(db));
            account.name in users && users[account.name] == (account.password, account.admin)
  {
    MapHolds(Visible(db), db.session);
  }

  lemma StepSimulates(db: Db, op: Op)
    requires Inv(db) && (op.DoReboot? ==> Durable(db))
    ensures ValidDb(Step(db, op)) && Abstraction(Step(db, op)) == AbstractStep(Abstraction(db), op)
  {
    hide ToMap;
    if db.session >= 0 {
      SessionIsKey(db);
    }
    match op {
      case DoLogin(name, password) =>
        LoginIsLookup(db, name, password);
      case DoAdd(name, password, disk) =>
        MapSize(Visible(db));
        AddIsInsert(db, name, password, disk);
      case DoChange(o, n, disk) =>
        ChangeIsUpdate(db, o, n, disk);
      case DoReboot =>
    }
  }

  /** The array refines the map over whole runs: without a reboot whatever the disk does, and with
      any number of reboots when every save works. */
  lemma {:induction false} RunSimulates(db: Db, ops: seq<Op>)
    requires Inv(db)
    requires NoReboot(ops) || (GoodStore(db.store) && Durable(db) && AllSavesWork(ops))
    ensures Abstraction(Run(db, ops)) == AbstractRun(Abstraction(db), ops)
    decreases |ops|
  {
    if ops != [] {
      StepInv(db, ops[0]);
      StepSimulates(db, ops[0]);
      if !NoReboot(ops) {
        StepStore(db, ops[0]);
        StepDurable(db, ops[0]);
      }
      RunSimulates(Step(db, ops[0]), ops[1..]);
    }
  }

  // ----- The program

  method Equal(a: Str, b: Str) returns (same: bool)
    requires NulFree(a) && NulFree(b)
    ensures same <==> a == b
  {
    var i := 0;
    while At(a, i) != NUL && At(b, i) != NUL && At(a, i) == At(b, i)
      invariant i <= |a| && i <= |b| && a[..i] == b[..i]
      decreases |a| - i
    {
      i := i + 1;
    }
    assert a[..i] == b[..i];
    same := At(a, i) == NUL && At(b, i) == NUL;
  }

  method Validate(s: Str) returns (ok: bool)
    requires NulFree(s)
    ensures ok <==> Acceptable(s)
    ensures ok <==> 1 <= |s| <= 31 && forall i :: 0 <= i < |s| ==> s[i] != 32
  {
    var n, i := 0, 0;
    while At(s, i) != NUL
      invariant n == i <= |s| && i <= TEXT_MAX
      invariant SPACE !in s[..i]
      decreases |s| - i
    {
      if s[i] == SPACE {
        return false;
      }
      n := n + 1;
      if n > TEXT_MAX {
        return false;
      }
      i := i + 1;
    }
    assert s[..i] == s;
    ok := n != 0;
  }

  /** Copies at most 31 units, as the fixed-size text fields allow. */
  method Copy(from: Str) returns (to: Str)
    requires NulFree(from)
    ensures to == Kept(from) && (|from| <= TEXT_MAX ==> to == from)
  {
    var i := 0;
    to := [];
    while At(from, i) != NUL && i < TEXT_MAX
      invariant i <= |from| && i <= TEXT_MAX && to == from[..i]
      decreases TEXT_MAX - i
    {
      to := to + [from[i]];
      i := i + 1;
    }
  }

  ghost predicate CText(a: Account) {
    NulFree(a.name) && NulFree(a.password)
  }

  ghost predicate CTexts(accounts: seq<Account>) {
    forall i :: 0 <= i < |accounts| ==> CText(accounts[i])
  }

  class Table {
    const accounts: array<Account>
    var count: int
    var session: int
    var store: Store

    ghost function State(): Db
      reads this, accounts
    {
      Db(accounts[..], count, session, store)
    }

    ghost predicate Valid()
      reads this, accounts
    {
      && accounts.Length == MAX_USERS && ValidDb(State()) && CTexts(accounts[..])
      && (store.Image? ==> CTexts(store.entries))
    }

    /** Power-on: zeroed memory, whatever the disk holds, then the initialisation. */
    constructor (store: Store)
      requires store.Image? ==> CTexts(store.entries)
      ensures Valid() && fresh(accounts)
      ensures State() == Init(Zeroed(), store)
    {
      accounts := new Account[MAX_USERS](_ => BLANK_ACCOUNT);
      count, session, this.store := 0, -1, store;
      new;
      assert accounts[..] == Zeroed();
      InitTable();
    }

    method Save(disk: Disk) returns (ok: bool)
      requires Valid() && (disk.Breaks? && disk.left.Image? ==> CTexts(disk.left.entries))
      modifies this`store
      ensures Valid() && State() == Saved(old(State()), disk) && ok == disk.Works?
    {
      match disk {
        case Works =>
          var entries := new Account[MAX_USERS](_ => BLANK_ACCOUNT);
          for i := 0 to MAX_USERS
            invariant entries[..i] == accounts[..i]
          {
            entries[i] := accounts[i];
          }
          assert entries[..] == accounts[..];
          store := Image(STORE_MAGIC, count, entries[..]);
          ok := true;
        case Breaks(left) =>
          store := left;
          ok := false;
      }
    }

    /** Takes over the store if it is one; only the initialisation calls this. */
    method Load()
      requires Valid() && session == -1
      modifies this`count, accounts
      ensures Valid()
      ensures State() == if Loadable(store) then Db(store.entries, store.count, -1, store) else old(State())
    {
      if store.Image? && store.magic == STORE_MAGIC && store.count > 0 && store.count <= MAX_USERS
         && |store.entries| == MAX_USERS
      {
        count := store.count;
        for i := 0 to MAX_USERS
          invariant count == store.count && accounts[..i] == store.entries[..i]
          invariant CTexts(accounts[..])
        {
          accounts[i] := store.entries[i];
        }
        assert accounts[..] == store.entries;
      }
    }

    method InitTable()
      requires accounts.Length == MAX_USERS && CTexts(accounts[..]) && (store.Image? ==> CTexts(store.entries))
      modifies this`count, this`session, accounts
      ensures Valid() && State() == Init(old(accounts[..]), old(store))
    {
      ghost var found := accounts[..];
      count, session := 1, -1;
      var name := Copy(ADMIN);
      var password := Copy(FISIX);
      accounts[0] := Account(name, password, true);
      assert accounts[..] == found[0 := Account(ADMIN, FISIX, true)];
      Load();
    }

    method LogIn(name: Str, password: Str) returns (ok: bool)
      requires Valid() && NulFree(name) && NulFree(password)
      modifies this`session
      ensures Valid() && (State(), ok) == Login(old(State()), name, password)
    {
      var i := 0;
      ghost var users := accounts[..count];
      while i < count
        invariant 0 <= i <= count && session == old(session)
        invariant FindLogin(users, name, password, i) == FindLogin(users, name, password, 0)
      {
        assert CText(accounts[..][i]) && users[i] == accounts[i];
        var sameName := Equal(accounts[i].name, name);
        var samePassword := Equal(accounts[i].password, password);
        if sameName && samePassword {
          session := i;
          return true;
        }
        i := i + 1;
      }
      return false;
    }

    method NameTaken(name: Str) returns (taken: bool)
      requires Valid() && NulFree(name)
      ensures taken <==> FindName(Visible(State()), name) >= 0
    {
      var i := 0;
      ghost var users := accounts[..count];
      assert users == Visible(State());
      while i < count
        invariant 0 <= i <= count
        invariant FindName(users, name, i) == FindName(users, name, 0)
      {
        assert CText(accounts[..][i]) && users[i] == accounts[i];
        var same := Equal(accounts[i].name, name);
        if same {
          return true;
        }
        i := i + 1;
      }
      return false;
    }

    method AddUser(name: Str, password: Str, disk: Disk) returns (ok: bool)
      requires Valid() && NulFree(name) && NulFree(password)
      requires disk.Breaks? && disk.left.Image? ==> CTexts(disk.left.entries)
      modifies this`count, this`store, accounts
      ensures Valid() && (State(), ok) == Add(old(State()), name, password, disk)
    {
      var goodName := Validate(name);
      var goodPassword := Validate(password);
      if !AdminSession() || !goodName || !goodPassword || count == MAX_USERS {
        return false;
      }
      var taken := NameTaken(name);
      if taken {
        return false;
      }
      ghost var before := accounts[..];
      var keptName := Copy(name);
      var keptPassword := Copy(password);
      accounts[count] := Account(keptName, keptPassword, false);
      assert accounts[..] == before[count := Account(name, password, false)];
      count := count + 1;
      ok := Save(disk);
    }

    method ChangeOwnPassword(oldPassword: Str, newPassword: Str, disk: Disk) returns (ok: bool)
      requires Valid() && NulFree(oldPassword) && NulFree(newPassword)
      requires disk.Breaks? && disk.left.Image? ==> CTexts(disk.left.entries)
      modifies this`store, accounts
      ensures Valid() && (State(), ok) == ChangePassword(old(State()), oldPassword, newPassword, disk)
    {
      if session < 0 {
        return false;
      }
      assert CText(accounts[..][session]);
      var same := Equal(accounts[session].password, oldPassword);
      var good := Validate(newPassword);
      if !same || !good {
        return false;
      }
      ghost var before := accounts[..];
      var kept := Copy(newPassword);
      accounts[session] := accounts[session].(password := kept);
      assert accounts[..] == before[session := before[session].(password := newPassword)];
      ok := Save(disk);
    }

    predicate AdminSession()
      requires Valid()
      reads this, accounts
      ensures AdminSession() <==> IsAdmin(State())
    {
      session >= 0 && accounts[session].admin
    }

    /** The name shown for the session: that of its account, which the table holds. */
    function CurrentUser(): (name: Str)
      requires Valid()
      reads this, accounts
      ensures session < 0 ==> name == Lit("nobody")
      ensures session >= 0 ==> name == Visible(State())[session].name
    {
      if session >= 0 then accounts[session].name else NOBODY
    }
  }
}
