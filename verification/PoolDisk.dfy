/** The pool on disk, and what each privileged command does to it. Everything the worker
    knows after a crash is here: names, subvolumes, their times, and the quota groups. */
module PoolDisk {
  import opened Decimal
  import opened Names

  /** A name at the pool's top: one the pool itself gives, or any other text. */
  datatype Name = Own(entry: Entry) | Other(text: string)

  function KeyOf(text: string): Name {
    var e := EntryOf(text);
    if e.Some? && NameOf(e.value) == text then Own(e.value) else Other(text)
  }

  function TextOf(n: Name): string {
    match n
    case Own(e) => NameOf(e)
    case Other(text) => text
  }

  /** What the pool takes a name for. A stray such as `job-05` parses too. */
  function Parsed(n: Name): Option<Entry> {
    match n
    case Own(e) => Some(e)
    case Other(text) => EntryOf(text)
  }

  /** Directories keyed by `Name` are directories keyed by text, parsed as the code parses. */
  lemma KeysAreTexts(text: string, e: Entry)
    ensures TextOf(KeyOf(text)) == text
    ensures Parsed(KeyOf(text)) == EntryOf(text)
    ensures KeyOf(NameOf(e)) == Own(e)
  {
    EntryOfNameOf(e);
  }

  /** A subvolume (or, for a lock, a file). `uuid` is the identity both the parent relation
      and the quota groups go by: a rename keeps it, and no two volumes ever share it. */
  datatype Node = Node(uuid: nat, parent: Option<nat>, mtime: nat)

  /** What is at the pool's top. A real directory has each text once, under `KeyOf` of it; what is
      proved here of every map is proved of more than those. */
  type Dir = map<Name, Node>

  /** A build's quota group: the volumes charged to it, and whether it is under the total. */
  datatype Group = Group(members: set<nat>, counted: bool, limit: Option<nat>)

  datatype Disk = Disk(
    dir: Dir,
    groups: map<BuildId, Group>,
    /** Volumes counted against the total directly. */
    total: set<nat>,
    /** Every identity ever given out. */
    ids: set<nat>,
    now: nat)

  function Live(dir: Dir): set<nat> {
    set n | n in dir :: dir[n].uuid
  }

  ghost predicate Valid(d: Disk) {
    && (forall n :: n in d.dir ==> d.dir[n].uuid in d.ids)
    && (forall n :: n in d.dir && d.dir[n].parent.Some? ==> d.dir[n].parent.value in d.ids)
    && (forall a, b :: a in d.dir && b in d.dir && d.dir[a].uuid == d.dir[b].uuid ==> a == b)
  }

  datatype Command =
    | Snapshot(from: Name, to: Name, uuid: nat)
    | Create(to: Name, uuid: nat)
    | Delete(names: set<Name>)
    | Rename(from: Name, to: Name)
    | Exchange(a: Name, b: Name)
    | Touch(name: Name)
    | GroupCreate(id: BuildId)
    | Assign(uuid: nat, id: BuildId)
    | CountGroup(id: BuildId)
    | CountVolume(uuid: nat)
    | SetLimit(id: BuildId, limit: Option<nat>)
    | GroupDestroy(id: BuildId)
    | ClearStale(freed: set<nat>)
    | Tick(elapsed: nat)

  /** The disk after a command, or `None` when the command is refused. A group with members
      is never destroyed, and only volumes that are gone are cleared from their groups. */
  function Exec(d: Disk, c: Command): Option<Disk> {
    match c
    case Snapshot(from, to, uuid) =>
      if from !in d.dir || uuid in d.ids then None
      // Onto a name that is taken, the snapshot is made inside what is there.
      else if to in d.dir then Some(d.(ids := d.ids + {uuid}))
      // A snapshot's top directory keeps its origin's time.
      else Some(d.(dir := d.dir[to := Node(uuid, Some(d.dir[from].uuid), d.dir[from].mtime)], ids := d.ids + {uuid}))
    case Create(to, uuid) =>
      if to !in d.dir && uuid !in d.ids then
        Some(d.(dir := d.dir[to := Node(uuid, None, d.now)], ids := d.ids + {uuid}))
      else None
    case Delete(names) => Some(d.(dir := d.dir - names))
    case Rename(from, to) =>
      if from in d.dir && to !in d.dir then Some(d.(dir := (d.dir - {from})[to := d.dir[from]])) else None
    case Exchange(a, b) =>
      if a in d.dir && b in d.dir then Some(d.(dir := d.dir[a := d.dir[b]][b := d.dir[a]])) else None
    case Touch(n) =>
      if n in d.dir then Some(d.(dir := d.dir[n := d.dir[n].(mtime := d.now)])) else None
    case GroupCreate(id) =>
      if id in d.groups then None else Some(d.(groups := d.groups[id := Group({}, false, None)]))
    case Assign(uuid, id) =>
      if uuid in d.ids && id in d.groups then
        Some(d.(groups := d.groups[id := d.groups[id].(members := d.groups[id].members + {uuid})]))
      else None
    case CountGroup(id) =>
      if id in d.groups then Some(d.(groups := d.groups[id := d.groups[id].(counted := true)])) else None
    case CountVolume(uuid) => Some(d.(total := d.total + {uuid}))
    case SetLimit(id, limit) =>
      if id in d.groups then Some(d.(groups := d.groups[id := d.groups[id].(limit := limit)])) else None
    case GroupDestroy(id) =>
      if id in d.groups && d.groups[id].members == {} then Some(d.(groups := d.groups - {id})) else None
    case ClearStale(freed) =>
      if freed !! Live(d.dir) then
        Some(d.(
          groups := map id | id in d.groups :: d.groups[id].(members := d.groups[id].members - freed),
          total := d.total - freed))
      else None
    case Tick(elapsed) => Some(d.(now := d.now + elapsed))
  }

  /** Where a command puts a volume. */
  function PutsAt(c: Command): set<Name> {
    match c
    case Snapshot(_, to, _) => {to}
    case Create(to, _) => {to}
    case Rename(_, to) => {to}
    case Exchange(a, b) => {a, b}
    case _ => {}
  }

  /** Run one command, which fails when it is refused or does not work. */
  method Attempt(d: Disk, c: Command, works: bool) returns (ok: bool, d': Disk)
    ensures ok == (works && Exec(d, c).Some?)
    ensures if ok then Exec(d, c) == Some(d') else d' == d
  {
    ok, d' := false, d;
    if works {
      match Exec(d, c)
      case Some(after) => ok, d' := true, after;
      case None =>
    }
  }

  lemma ExecKeepsValid(d: Disk, c: Command)
    requires Valid(d) && Exec(d, c).Some?
    ensures Valid(Exec(d, c).value)
    ensures d.ids <= Exec(d, c).value.ids
  {
  }

  /** Identities are never given out again: a volume that is gone stays gone. */
  lemma DeadStaysDead(d: Disk, c: Command, uuid: nat)
    requires Valid(d) && Exec(d, c).Some? && uuid in d.ids && uuid !in Live(d.dir)
    ensures uuid !in Live(Exec(d, c).value.dir)
  {
    var d' := Exec(d, c).value;
    forall n | n in d'.dir
      ensures d'.dir[n].uuid != uuid
    {
      assert d'.dir[n].uuid in Live(d.dir) || d'.dir[n].uuid !in d.ids by {
        match c
        case Rename(from, to) => assert n == to ==> d'.dir[n] == d.dir[from];
        case Exchange(a, b) => assert d.dir[a].uuid in Live(d.dir) && d.dir[b].uuid in Live(d.dir);
        case Touch(m) => assert d.dir[m].uuid in Live(d.dir);
        case _ =>
      }
    }
  }

  ghost predicate IsMember(d: Disk, uuid: nat, id: BuildId) {
    id in d.groups && uuid in d.groups[id].members
  }

  ghost predicate IsCounted(d: Disk, uuid: nat, id: BuildId) {
    IsMember(d, uuid, id) && d.groups[id].counted
  }

  /** No command takes a volume that is still there out of the total. */
  lemma CountIsStable(d: Disk, c: Command, uuid: nat)
    requires Exec(d, c).Some? && uuid in Live(d.dir) && uuid in d.total
    ensures uuid in Exec(d, c).value.total
  {
  }

  /** No command takes a volume that is still there out of its group, nor its group out of
      the total: not a rename, not another build's lease, not a tidy with a stale view. */
  lemma MembershipIsStable(d: Disk, c: Command, uuid: nat, id: BuildId)
    requires Valid(d) && Exec(d, c).Some? && IsMember(d, uuid, id)
    requires uuid in Live(d.dir)
    ensures IsMember(Exec(d, c).value, uuid, id)
    ensures IsCounted(d, uuid, id) ==> IsCounted(Exec(d, c).value, uuid, id)
  {
  }
}
