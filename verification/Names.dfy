/** The pool's top-level names and its quota-group identifiers. */
module Names {
  import opened Decimal
  import opened Strings

  /** Build ids are positive `i32`s. */
  type BuildId = id: int | 0 < id <= I32_MAX witness 1

  datatype BaseKind = Root | Next | Prev

  /** Which part of a build's volumes a name is. `Tree` is a kept build's moved tree. */
  datatype Part = Chroot | Data | Lock | Tree

  datatype Entry =
    | Job(id: BuildId, part: Part)
    | Kept(id: BuildId, part: Part)
    | Base(kind: BaseKind)
    | RefreshLock
    | DevtoolsLock

  function Suffix(part: Part): string {
    match part
    case Chroot => ""
    case Data => ".data"
    case Lock => ".lock"
    case Tree => ".build"
  }

  /** The name an entry has on disk. */
  function NameOf(e: Entry): string {
    match e
    case Base(Root) => "root"
    case Base(Next) => "root.next"
    case Base(Prev) => "root.prev"
    case RefreshLock => "refresh.lock"
    case DevtoolsLock => "root.lock"
    case Job(id, part) => "job-" + ToString(id) + Suffix(part)
    case Kept(id, part) => "kept-" + ToString(id) + Suffix(part)
  }

  /** The text of the id and the part, of what follows `job-` or `kept-`. */
  function SplitPart(rest: string): (r: (string, Part))
    ensures rest == r.0 + Suffix(r.1)
  {
    if EndsWith(rest, ".data") then (rest[..|rest| - 5], Data)
    else if EndsWith(rest, ".lock") then (rest[..|rest| - 5], Lock)
    else if EndsWith(rest, ".build") then (rest[..|rest| - 6], Tree)
    else (rest, Chroot)
  }

  function BuildEntry(kept: bool, rest: string): Option<Entry> {
    var (digits, part) := SplitPart(rest);
    match ParseI32(digits)
    case None => None
    case Some(id) =>
      if id <= 0 then None
      else if kept then Some(Kept(id, part))
      else Some(Job(id, part))
  }

  /** What a name at the pool's top is; `None` for a name that is not the pool's. */
  function EntryOf(name: string): Option<Entry> {
    if name == "root" then Some(Base(Root))
    else if name == "root.next" then Some(Base(Next))
    else if name == "root.prev" then Some(Base(Prev))
    else if name == "refresh.lock" then Some(RefreshLock)
    else if name == "root.lock" then Some(DevtoolsLock)
    else
      match StripPrefix(name, "job-")
      case Some(rest) => BuildEntry(false, rest)
      case None =>
        match StripPrefix(name, "kept-")
        case Some(rest) => BuildEntry(true, rest)
        case None => None
  }

  lemma SplitPrinted(id: nat, part: Part)
    ensures SplitPart(ToString(id) + Suffix(part)) == (ToString(id), part)
  {
    var rest := ToString(id) + Suffix(part);
    assert IsDigit(ToString(id)[|ToString(id)| - 1]);
    assert rest[..|rest| - |Suffix(part)|] == ToString(id);
    assert rest[|rest| - |Suffix(part)|..] == Suffix(part);
    var last := rest[|rest| - 1];
    assert EndsWith(rest, ".data") ==> last == ".data"[4];
    assert EndsWith(rest, ".lock") ==> last == ".lock"[4];
    assert EndsWith(rest, ".build") ==> last == ".build"[5];
  }

  lemma ParseI32Printed(id: BuildId)
    ensures ParseI32(ToString(id)) == Some(id)
  {
    ParsePrinted(id, I32_MAX);
    assert IsDigit(ToString(id)[0]);
  }

  lemma EntryOfJob(rest: string)
    ensures EntryOf("job-" + rest) == BuildEntry(false, rest)
  {
    var name := "job-" + rest;
    assert name[0] == 'j' && name[4..] == rest && "job-" <= name;
  }

  lemma EntryOfKept(rest: string)
    ensures EntryOf("kept-" + rest) == BuildEntry(true, rest)
  {
    var name := "kept-" + rest;
    assert name[0] == 'k' && name[5..] == rest && "kept-" <= name;
  }

  lemma BuildEntryPrinted(kept: bool, id: BuildId, part: Part)
    ensures BuildEntry(kept, ToString(id) + Suffix(part)) == Some(if kept then Kept(id, part) else Job(id, part))
  {
    ParseI32Printed(id);
    SplitPrinted(id, part);
  }

  lemma EntryOfBuildName(kept: bool, id: BuildId, part: Part)
    ensures var e := if kept then Kept(id, part) else Job(id, part); EntryOf(NameOf(e)) == Some(e)
  {
    hide EntryOf, BuildEntry, ToString;
    var rest := ToString(id) + Suffix(part);
    BuildEntryPrinted(kept, id, part);
    if kept {
      assert NameOf(Kept(id, part)) == "kept-" + rest;
      EntryOfKept(rest);
    } else {
      assert NameOf(Job(id, part)) == "job-" + rest;
      EntryOfJob(rest);
    }
  }

  /** The parser inverts the name functions, for every entry. */
  lemma EntryOfNameOf(e: Entry)
    ensures EntryOf(NameOf(e)) == Some(e)
  {
    match e
    case Job(id, part) => hide EntryOf, NameOf; EntryOfBuildName(false, id, part);
    case Kept(id, part) => hide EntryOf, NameOf; EntryOfBuildName(true, id, part);
    case _ =>
  }

  /** Names of distinct builds, parts and kinds never collide. */
  lemma NamesAreDistinct(a: Entry, b: Entry)
    requires NameOf(a) == NameOf(b)
    ensures a == b
  {
    EntryOfNameOf(a);
    EntryOfNameOf(b);
  }

  /** The other direction fails: the parser reads more than the name functions print. */
  lemma TwoNamesOneEntry()
    ensures EntryOf("job-05") == Some(Job(5, Chroot)) == EntryOf("job-+5")
    ensures NameOf(Job(5, Chroot)) == "job-5"
  {
    hide EntryOf, BuildEntry;
    assert "job-05" == "job-" + "05" && "job-+5" == "job-" + "+5" && "job-5" == "job-" + ("5" + "");
    EntryOfJob("05");
    EntryOfJob("+5");
    FiveIsFive();
    assert ToString(5) == "5";
  }

  lemma FiveIsFive()
    ensures BuildEntry(false, "05") == Some(Job(5, Chroot)) == BuildEntry(false, "+5")
  {
    assert "+5"[1..] == "5";
    assert "05"[..1] == "0" && "0"[..0] == "" && "5"[..0] == "";
    assert ValueOf("0") == 0 && ValueOf("05") == 5 && ValueOf("5") == 5;
  }

  /** The text of a build's id in a name that begins with `job-` or `kept-`. */
  function IdText(name: string): string {
    SplitPart(if "job-" <= name then name[4..] else if "kept-" <= name then name[5..] else "").0
  }

  lemma SameSuffix(a: string, b: string, part: Part)
    requires a + Suffix(part) == b + Suffix(part)
    ensures a == b
  {
    assert a == (a + Suffix(part))[..|a|] && b == (b + Suffix(part))[..|b|];
  }

  lemma PrintedId(text: string, id: BuildId)
    requires ParseI32(text) == Some(id)
    ensures ToString(id) == text <==> '1' <= text[0] <= '9'
  {
    if text[0] == '+' {
      assert IsDigit(ToString(id)[0]);
    } else {
      PrintParsed(text);
      assert "0"[..0] == "" && ValueOf("0") == 0;
    }
  }

  lemma BuildEntryParts(kept: bool, rest: string)
    requires BuildEntry(kept, rest).Some?
    ensures var e := BuildEntry(kept, rest).value;
      (if kept then e.Kept? else e.Job?) && SplitPart(rest).1 == e.part && ParseI32(SplitPart(rest).0) == Some(e.id)
  {
  }

  lemma EntryParts(name: string)
    requires EntryOf(name).Some? && (EntryOf(name).value.Job? || EntryOf(name).value.Kept?)
    ensures var e := EntryOf(name).value;
      && name == (if e.Job? then "job-" else "kept-") + (IdText(name) + Suffix(e.part))
      && ParseI32(IdText(name)) == Some(e.id)
  {
    var kept := !("job-" <= name);
    var prefix := if kept then "kept-" else "job-";
    assert prefix <= name;
    var rest := name[|prefix|..];
    assert name == prefix + rest;
    if kept { EntryOfKept(rest); } else { EntryOfJob(rest); }
    BuildEntryParts(kept, rest);
  }

  lemma SamePrefix(prefix: string, a: string, b: string)
    ensures prefix + a == prefix + b <==> a == b
  {
    assert a == (prefix + a)[|prefix|..] && b == (prefix + b)[|prefix|..];
  }

  lemma BuildNameExact(e: Entry, text: string)
    requires (e.Job? || e.Kept?) && ParseI32(text) == Some(e.id)
    ensures NameOf(e) == (if e.Job? then "job-" else "kept-") + (text + Suffix(e.part)) <==> '1' <= text[0] <= '9'
  {
    var prefix := if e.Job? then "job-" else "kept-";
    var printed := ToString(e.id) + Suffix(e.part);
    assert NameOf(e) == prefix + printed;
    SamePrefix(prefix, printed, text + Suffix(e.part));
    PrintedId(text, e.id);
    if printed == text + Suffix(e.part) {
      SameSuffix(ToString(e.id), text, e.part);
    }
  }

  /** It holds exactly for the names whose id is written without a sign or a leading zero. */
  lemma NameOfEntryOf(name: string)
    requires EntryOf(name).Some?
    ensures var e := EntryOf(name).value;
      NameOf(e) == name <==> ((e.Job? || e.Kept?) ==> IdText(name) != "" && '1' <= IdText(name)[0] <= '9')
  {
    var e := EntryOf(name).value;
    if e.Job? || e.Kept? {
      EntryParts(name);
      BuildNameExact(e, IdText(name));
    }
  }

  /** A number as the parser reads one: digits, after one `+` or none. */
  predicate Denotes(text: string, id: BuildId) {
    var digits := if text != "" && text[0] == '+' then text[1..] else text;
    digits != "" && AllDigits(digits) && ValueOf(digits) == id
  }

  lemma DenotesExactlyWhen(text: string, id: BuildId)
    ensures ParseI32(text) == Some(id) <==> Denotes(text, id)
  {
  }

  lemma SplitDenoted(text: string, id: BuildId, part: Part)
    requires Denotes(text, id)
    ensures SplitPart(text + Suffix(part)) == (text, part)
  {
    var rest := text + Suffix(part);
    assert IsDigit(text[|text| - 1]);
    assert rest[..|rest| - |Suffix(part)|] == text;
    assert rest[|rest| - |Suffix(part)|..] == Suffix(part);
    var last := rest[|rest| - 1];
    assert EndsWith(rest, ".data") ==> last == ".data"[4];
    assert EndsWith(rest, ".lock") ==> last == ".lock"[4];
    assert EndsWith(rest, ".build") ==> last == ".build"[5];
  }

  /** Exactly what is read as a part of a build, or of a kept failure: its prefix, a number for its id,
      and the part's suffix. Nothing else. */
  lemma BuildNamesAre(name: string, id: BuildId, part: Part, kept: bool)
    ensures EntryOf(name) == Some(if kept then Kept(id, part) else Job(id, part)) <==>
      exists text :: Denotes(text, id) && name == (if kept then "kept-" else "job-") + (text + Suffix(part))
  {
    var e := if kept then Kept(id, part) else Job(id, part);
    if EntryOf(name) == Some(e) {
      EntryParts(name);
      DenotesExactlyWhen(IdText(name), id);
    }
    hide EntryOf;
    if text :| Denotes(text, id) && name == (if kept then "kept-" else "job-") + (text + Suffix(part)) {
      var rest := text + Suffix(part);
      if kept { EntryOfKept(rest); } else { EntryOfJob(rest); }
      SplitDenoted(text, id, part);
      DenotesExactlyWhen(text, id);
    }
  }

  /** What is on disk for build 7, in so many words. */
  lemma TheNamesOnDisk()
    ensures NameOf(Job(7, Chroot)) == "job-7" && NameOf(Job(7, Data)) == "job-7.data"
    ensures NameOf(Job(7, Lock)) == "job-7.lock" && NameOf(Kept(7, Chroot)) == "kept-7"
    ensures NameOf(Kept(7, Data)) == "kept-7.data" && NameOf(Kept(7, Tree)) == "kept-7.build"
    ensures NameOf(Base(Root)) == "root" && NameOf(Base(Next)) == "root.next" && NameOf(Base(Prev)) == "root.prev"
    ensures NameOf(RefreshLock) == "refresh.lock" && NameOf(DevtoolsLock) == "root.lock"
  {
    assert ToString(7) == "7";
  }

  /** The names `ensure_subvolume` gives a long-lived subvolume. */
  predicate IsCacheName(name: string) {
    && name != ""
    && EntryOf(name).None?
    && forall i :: 0 <= i < |name| ==> 'a' <= name[i] <= 'z' || IsDigit(name[i]) || name[i] == '-'
  }

  /** A cache never takes the name of a build, a kept failure, the base or a lock, and its name is no
      path. */
  lemma CacheNamesAreNotEntries(name: string, e: Entry)
    requires IsCacheName(name)
    ensures name != NameOf(e)
    ensures '/' !in name && '.' !in name
  {
    EntryOfNameOf(e);
  }

  /** A quota group, `level/id`. */
  datatype QgroupId = QgroupId(level: nat, id: nat)

  const TOTAL := QgroupId(2, 0)
  const BUILD_BASE := 1000

  predicate IsQgroup(g: QgroupId) {
    g.level <= U16_MAX && g.id <= U64_MAX
  }

  function BuildGroup(id: nat): QgroupId {
    QgroupId(1, BUILD_BASE + id)
  }

  function BuildOf(g: QgroupId): Option<nat> {
    if g.level == 1 && BUILD_BASE <= g.id <= BUILD_BASE + I32_MAX then Some(g.id - BUILD_BASE) else None
  }

  function SysfsName(g: QgroupId): string {
    ToString(g.level) + "_" + ToString(g.id)
  }

  function FromSysfsName(name: string): Option<QgroupId> {
    match SplitOnce(name, '_')
    case None => None
    case Some((level, id)) =>
      match (ParseUnsigned(level, U16_MAX), ParseUnsigned(id, U64_MAX))
      case (Some(l), Some(i)) => Some(QgroupId(l, i))
      case _ => None
  }

  /** Every group is read back from its sysfs directory name. */
  lemma SysfsRoundTrip(g: QgroupId)
    requires IsQgroup(g)
    ensures FromSysfsName(SysfsName(g)) == Some(g)
  {
    assert '_' !in ToString(g.level) by {
      assert forall i :: 0 <= i < |ToString(g.level)| ==> IsDigit(ToString(g.level)[i]);
    }
    SplitOnceAt(ToString(g.level), '_', ToString(g.id));
    ParsePrinted(g.level, U16_MAX);
    ParsePrinted(g.id, U64_MAX);
  }

  /** A build's group leads back to the build and to no other, by number and by sysfs name;
      it is neither the total nor a cache's group nor a subvolume's own. */
  lemma BuildGroupRoundTrip(id: BuildId, g: QgroupId)
    ensures BuildOf(g) == Some(id) <==> g == BuildGroup(id)
    ensures FromSysfsName(SysfsName(BuildGroup(id))) == Some(BuildGroup(id))
    ensures g.level != 1 || g.id < 1000 || g.id > 1000 + 0x7FFF_FFFF ==> g != BuildGroup(id) && BuildOf(g) == None
  {
    SysfsRoundTrip(BuildGroup(id));
  }

  /** What the kernel calls build 7's group, and the total. */
  lemma TheGroupsInSysfs()
    ensures SysfsName(BuildGroup(7)) == "1_1007" && SysfsName(TOTAL) == "2_0"
  {
    assert ToString(1) == "1" && ToString(10) == "10" && ToString(100) == "100" && ToString(1007) == "1007";
    assert ToString(2) == "2" && ToString(0) == "0";
  }
}
