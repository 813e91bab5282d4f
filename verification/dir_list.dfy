/** The directory lister (`read_dir`) and the two classifiers built on it
    (`is_empty_dir`, `is_empty_dir_except_xlmeta`). A directory is seen as the
    stream of events its enumeration produces. */
module DirList {
  import opened FsTypes

  /** Rust's `i32`, the type of the lister's entry counter. */
  newtype i32 = x: int | -0x8000_0000 <= x < 0x8000_0000

  const SlashSeparator: string := "/"

  /** What `file_type()` reports for an entry: a regular file, a directory, or
      anything else (symbolic link, device, socket, ...). */
  datatype EntryKind = RegularFile | Directory | OtherKind

  /** The outcome of asking an entry for its type. */
  datatype FileType = Kind(kind: EntryKind) | TypeError(error: IoError)

  /** One step of the enumeration: an entry, or a failure to fetch the next one.
      The enumeration ends after the last event; nothing after a `NextError` is read. */
  datatype DirEvent = Entry(name: string, fileType: FileType) | NextError(error: IoError)

  /** A directory as the lister sees it: it cannot be opened, or it enumerates `events`. */
  datatype Listing = OpenError(error: IoError) | Opened(events: seq<DirEvent>)

  /** Names the lister passes over without asking for their type. */
  predicate IsSkippedName(name: string)
  {
    name == "" || name == "." || name == ".."
  }

  /** An entry that reaches the counter: not skipped, and its type could be read. */
  predicate IsCounted(ev: DirEvent)
  {
    ev.Entry? && !IsSkippedName(ev.name) && ev.fileType.Kind?
  }

  /** An event that makes the listing fail. */
  predicate IsFailing(ev: DirEvent)
  {
    ev.NextError? || (ev.Entry? && !IsSkippedName(ev.name) && ev.fileType.TypeError?)
  }

  /** The error an event fails with. */
  function FailureOf(ev: DirEvent): IoError
    requires IsFailing(ev)
  {
    if ev.NextError? then ev.error else ev.fileType.error
  }

  /** A counted entry that puts a name into the result: a file or a directory. */
  predicate IsShown(ev: DirEvent)
  {
    IsCounted(ev) && ev.fileType.kind != OtherKind
  }

  /** The names a counted entry adds to the result: the bare name of a file, the
      name and a separator for a directory, nothing for any other kind. */
  function Shown(name: string, kind: EntryKind): (names: seq<string>)
    ensures |names| == (if kind == OtherKind then 0 else 1)
    ensures !IsSkippedName(name) ==> forall i :: 0 <= i < |names| ==> !IsSkippedName(names[i])
  {
    assert (name + SlashSeparator)[|name|] == '/';
    match kind
    case RegularFile => [name]
    case Directory => [name + SlashSeparator]
    case OtherKind => []
  }

  /** `count -= 1` on an `i32`, wrapping at the bottom of the range. */
  function WrappingDec(c: i32): (d: i32)
    // Two's-complement subtraction: the true difference, modulo 2^32.
    ensures (d as int - (c as int - 1)) % 0x1_0000_0000 == 0
  {
    if c == -0x8000_0000 then 0x7fff_ffff else c - 1
  }

  /** How many entries a starting `count` lets the lister count before the counter
      reaches zero: `count` itself when positive, otherwise the 2^32 + count
      decrements the wrapping counter needs to come back to zero. */
  function Budget(c: i32): (n: nat)
    ensures 1 <= n <= 0x1_0000_0000
    ensures c > 0 ==> n == c as int
    ensures c <= 0 ==> n >= 0x8000_0000
  {
    if c > 0 then c as int else c as int + 0x1_0000_0000
  }

  /** One decrement uses up one unit of budget; the loop stops when the last unit goes. */
  lemma BudgetStep(c: i32)
    ensures WrappingDec(c) == 0 <==> Budget(c) == 1
    ensures WrappingDec(c) != 0 ==> Budget(WrappingDec(c)) == Budget(c) - 1
  {
  }

  /** The loop of `read_dir` over the remaining events, with the counter at
      `count`: the names it appends to the result from here on. */
  function ReadEntries(events: seq<DirEvent>, count: i32): Result<seq<string>, IoError>
    decreases |events|
  {
    if events == [] then Ok([])
    else
      match events[0]
      case NextError(e) => Err(e)
      case Entry(name, ft) =>
        if IsSkippedName(name) then ReadEntries(events[1..], count)
        else
          match ft
          case TypeError(e) => Err(e)
          case Kind(k) =>
            var c' := WrappingDec(count);
            if c' == 0 then Ok(Shown(name, k)) else After(Shown(name, k), ReadEntries(events[1..], c'))
  }

  /** A result with `names` put in front of the names it holds. */
  function After(names: seq<string>, r: Result<seq<string>, IoError>): Result<seq<string>, IoError>
  {
    match r
    case Ok(v) => Ok(names + v)
    case Err(e) => Err(e)
  }

  /** The loop appends at most one name per unit of budget, and never a skipped name. */
  lemma {:induction false} ReadEntriesBounds(events: seq<DirEvent>, count: i32)
    ensures var r := ReadEntries(events, count);
            r.Ok? ==> |r.value| <= Budget(count) && forall i :: 0 <= i < |r.value| ==> !IsSkippedName(r.value[i])
    decreases |events|
  {
    if events != [] && events[0].Entry? {
      var name := events[0].name;
      if IsSkippedName(name) {
        ReadEntriesBounds(events[1..], count);
      } else if events[0].fileType.Kind? {
        var sh := Shown(name, events[0].fileType.kind);
        BudgetStep(count);
        var c' := WrappingDec(count);
        if c' != 0 {
          ReadEntriesBounds(events[1..], c');
          var r := ReadEntries(events[1..], c');
          if r.Ok? {
            assert forall i :: 0 <= i < |sh + r.value| ==>
                     (sh + r.value)[i] == if i < |sh| then sh[i] else r.value[i - |sh|];
          }
        }
      }
    }
  }

  /** `read_dir(path, count)`: the names of the directory's files and
      subdirectories in enumeration order, stopping after `count` counted entries
      when `count` is positive. */
  function ReadDir(listing: Listing, count: i32): (r: Result<seq<string>, IoError>)
    ensures listing.OpenError? ==> r == Err(listing.error)
    ensures r.Ok? && count > 0 ==> |r.value| <= count as int
    ensures r.Ok? ==> forall i :: 0 <= i < |r.value| ==> !IsSkippedName(r.value[i])
  {
    match listing
    case OpenError(e) => Err(e)
    case Opened(events) =>
      ReadEntriesBounds(events, count);
      ReadEntries(events, count)
  }

  /* ---------------------------------------------------------------------------
     Reference description of the lister
     ------------------------------------------------------------------------- */

  /** Number of counted entries among the events. */
  function CountedIn(events: seq<DirEvent>): (n: nat)
    ensures n <= |events|
  {
    if events == [] then 0
    else (if IsCounted(events[0]) then 1 else 0) + CountedIn(events[1..])
  }

  /** The events a budget lets the lister look at: everything up to and including
      the counted entry that uses up the budget, or all events if it is never used up. */
  function Scanned(events: seq<DirEvent>, budget: nat): (s: seq<DirEvent>)
    requires budget >= 1
    ensures s <= events
    ensures CountedIn(events) < budget ==> s == events
  {
    if events == [] then []
    else if IsCounted(events[0]) && budget == 1 then [events[0]]
    else
      assert events == [events[0]] + events[1..];
      [events[0]] + Scanned(events[1..], if IsCounted(events[0]) then budget - 1 else budget)
  }

  /** The error of the first failing event, if there is one. */
  function FirstFailure(events: seq<DirEvent>): Option<IoError>
  {
    if events == [] then None
    else if IsFailing(events[0]) then Some(FailureOf(events[0]))
    else FirstFailure(events[1..])
  }

  /** There is a first failure exactly when some event fails, and it is that
      event's error. */
  lemma {:induction false} FirstFailureIff(events: seq<DirEvent>)
    ensures FirstFailure(events).None? <==> forall ev :: ev in events ==> !IsFailing(ev)
    ensures FirstFailure(events).Some? ==>
              exists ev :: ev in events && IsFailing(ev) && FailureOf(ev) == FirstFailure(events).value
  {
    if events != [] && !IsFailing(events[0]) {
      FirstFailureIff(events[1..]);
      assert forall ev :: ev in events <==> ev == events[0] || ev in events[1..];
    }
  }

  /** All names the counted entries among `events` contribute, in order. */
  function ShownAll(events: seq<DirEvent>): seq<string>
  {
    if events == [] then []
    else (if IsCounted(events[0]) then Shown(events[0].name, events[0].fileType.kind) else [])
         + ShownAll(events[1..])
  }

  /** What the lister returns, described without its loop: fail with the first
      failure among the scanned events, otherwise return what they show. */
  function ListSpec(events: seq<DirEvent>, budget: nat): Result<seq<string>, IoError>
    requires budget >= 1
  {
    var s := Scanned(events, budget);
    match FirstFailure(s)
    case Some(e) => Err(e)
    case None => Ok(ShownAll(s))
  }

  /** An event the lister passes over without failing or counting leaves the
      reference description unchanged. */
  lemma ListSpecPassOver(events: seq<DirEvent>, b: nat)
    requires events != [] && b >= 1 && !IsCounted(events[0]) && !IsFailing(events[0])
    ensures ListSpec(events, b) == ListSpec(events[1..], b)
  {
    var s := Scanned(events[1..], b);
    assert Scanned(events, b) == [events[0]] + s;
    assert ([events[0]] + s)[1..] == s;
    assert ShownAll([events[0]] + s) == ShownAll(s);
    assert FirstFailure([events[0]] + s) == FirstFailure(s);
  }

  /** A failing first event decides the reference description. */
  lemma ListSpecFailsFirst(events: seq<DirEvent>, b: nat)
    requires events != [] && b >= 1 && IsFailing(events[0])
    ensures ListSpec(events, b) == Err(FailureOf(events[0]))
  {
  }

  /** A counted entry that uses up the last unit of budget ends the scan. */
  lemma ListSpecLastCounted(events: seq<DirEvent>)
    requires events != [] && IsCounted(events[0])
    ensures ListSpec(events, 1) == Ok(Shown(events[0].name, events[0].fileType.kind))
  {
    var ev := events[0];
    assert Scanned(events, 1) == [ev];
    assert [ev][1..] == [];
    assert ShownAll([ev]) == Shown(ev.name, ev.fileType.kind) + ShownAll([]);
    assert FirstFailure([ev]) == FirstFailure([]);
    assert Shown(ev.name, ev.fileType.kind) + [] == Shown(ev.name, ev.fileType.kind);
  }

  /** A counted entry that leaves budget over puts its names in front of what the
      rest of the events give with one unit less. */
  lemma ListSpecCounted(events: seq<DirEvent>, b: nat)
    requires events != [] && b >= 2 && IsCounted(events[0])
    ensures ListSpec(events, b) == After(Shown(events[0].name, events[0].fileType.kind), ListSpec(events[1..], b - 1))
  {
  }

  /** The loop computes the reference description. */
  lemma {:induction false} ReadEntriesMatchesSpec(events: seq<DirEvent>, count: i32)
    ensures ReadEntries(events, count) == ListSpec(events, Budget(count))
    decreases |events|
  {
    if events == [] {
      assert ListSpec(events, Budget(count)) == Ok([]);
    } else {
      var ev := events[0];
      var b := Budget(count);
      BudgetStep(count);
      if IsFailing(ev) {
        ListSpecFailsFirst(events, b);
      } else if !IsCounted(ev) {
        ReadEntriesMatchesSpec(events[1..], count);
        ListSpecPassOver(events, b);
      } else if WrappingDec(count) == 0 {
        ListSpecLastCounted(events);
      } else {
        ReadEntriesMatchesSpec(events[1..], WrappingDec(count));
        ListSpecCounted(events, b);
      }
    }
  }

  /** `read_dir` agrees with the reference description: a directory that cannot be
      opened fails with that error; otherwise the lister fails with the first
      failure among the events it looks at, and returns nothing else in that case,
      or returns the names of the files and directories it looked at, in order. */
  lemma ReadDirMatchesSpec(listing: Listing, count: i32)
    ensures ReadDir(listing, count)
         == match listing
            case OpenError(e) => Err(e)
            case Opened(events) => ListSpec(events, Budget(count))
  {
    if listing.Opened? {
      ReadEntriesMatchesSpec(listing.events, count);
    }
  }

  /** A non-positive count sets no limit: unless the directory holds 2^32 + count
      counted entries or more (at which point the 32-bit counter wraps round to zero),
      the lister reads every event. */
  lemma ReadDirUnbounded(events: seq<DirEvent>, count: i32)
    requires count <= 0
    requires CountedIn(events) < count as int + 0x1_0000_0000
    ensures ReadDir(Opened(events), count)
         == match FirstFailure(events)
            case Some(e) => Err(e)
            case None => Ok(ShownAll(events))
  {
    ReadDirMatchesSpec(Opened(events), count);
  }

  /** Listing five files with count 1 returns exactly one name, the first. */
  lemma FiveFilesLimitOne(a: string, b: string, c: string, d: string, e: string)
    requires !IsSkippedName(a)
    ensures ReadDir(Opened([Entry(a, Kind(RegularFile)), Entry(b, Kind(RegularFile)),
                            Entry(c, Kind(RegularFile)), Entry(d, Kind(RegularFile)),
                            Entry(e, Kind(RegularFile))]), 1)
         == Ok([a])
  {
  }

  /* ---------------------------------------------------------------------------
     is_empty_dir
     ------------------------------------------------------------------------- */

  /** `is_empty_dir`: list with count 1; true when that succeeds with no names.
      False when the directory cannot be opened or the listing fails. */
  function IsEmptyDir(listing: Listing): (b: bool)
    ensures listing.OpenError? ==> !b
  {
    var r := ReadDir(listing, 1);
    r.Ok? && r.value == []
  }

  /** The first event the lister does not pass over: a counted entry or a failure. */
  function FirstRelevant(events: seq<DirEvent>): (r: Option<DirEvent>)
    ensures r.None? <==> forall ev :: ev in events ==> !IsCounted(ev) && !IsFailing(ev)
    ensures r.Some? ==> r.value in events && (IsCounted(r.value) || IsFailing(r.value))
  {
    if events == [] then None
    else if IsCounted(events[0]) || IsFailing(events[0]) then Some(events[0])
    else
      assert forall ev :: ev in events <==> ev == events[0] || ev in events[1..];
      FirstRelevant(events[1..])
  }

  /** `is_empty_dir` holds exactly when the directory opens and the first entry the
      lister counts is neither a file nor a directory, or there is no such entry
      and no failure. */
  lemma {:induction false} IsEmptyDirIff(listing: Listing)
    ensures IsEmptyDir(listing)
        <==> listing.Opened?
             && (FirstRelevant(listing.events).None?
                 || (IsCounted(FirstRelevant(listing.events).value)
                     && FirstRelevant(listing.events).value.fileType.kind == OtherKind))
  {
    if listing.Opened? {
      ReadOneIff(listing.events);
    }
  }

  lemma {:induction false} ReadOneIff(events: seq<DirEvent>)
    ensures ReadEntries(events, 1) == Ok([])
        <==> (FirstRelevant(events).None?
              || (IsCounted(FirstRelevant(events).value) && FirstRelevant(events).value.fileType.kind == OtherKind))
  {
    if events != [] {
      var ev := events[0];
      if !IsCounted(ev) && !IsFailing(ev) {
        ReadOneIff(events[1..]);
      }
    }
  }

  /** The as-written `is_empty_dir` depends on enumeration order: with a symbolic
      link enumerated before a regular file the directory is reported empty, with
      the file first it is not. */
  lemma IsEmptyDirOrderDependent()
    ensures IsEmptyDir(Opened([Entry("link", Kind(OtherKind)), Entry("f", Kind(RegularFile))]))
    ensures !IsEmptyDir(Opened([Entry("f", Kind(RegularFile)), Entry("link", Kind(OtherKind))]))
  {
  }

  /** Looks for the first file or directory, stopping there; fails on the first
      failure met before it. */
  function FindShown(events: seq<DirEvent>): (r: Result<bool, IoError>)
    ensures r == Ok(false) <==> forall ev :: ev in events ==> !IsShown(ev) && !IsFailing(ev)
    ensures r == Ok(true) ==> exists ev :: ev in events && IsShown(ev)
  {
    if events == [] then Ok(false)
    else if IsFailing(events[0]) then Err(FailureOf(events[0]))
    else if IsShown(events[0]) then Ok(true)
    else
      assert forall ev :: ev in events <==> ev == events[0] || ev in events[1..];
      FindShown(events[1..])
  }

  /** The order-independent correction of `is_empty_dir`: the directory opens
      and holds neither a file nor a subdirectory, and listing it does not fail.
      Entries of other kinds do not decide the answer. */
  function IsEmptyDirIntended(listing: Listing): (b: bool)
    ensures b <==> listing.Opened? && forall ev :: ev in listing.events ==> !IsShown(ev) && !IsFailing(ev)
  {
    listing.Opened? && FindShown(listing.events) == Ok(false)
  }

  /** The listing shows no name exactly when no event is a shown entry. */
  lemma {:induction false} ShownAllEmptyIff(events: seq<DirEvent>)
    ensures ShownAll(events) == [] <==> forall ev :: ev in events ==> !IsShown(ev)
  {
    if events != [] {
      var head := if IsCounted(events[0]) then Shown(events[0].name, events[0].fileType.kind) else [];
      ShownAllEmptyIff(events[1..]);
      assert ShownAll(events) == head + ShownAll(events[1..]);
      assert head == [] <==> !IsShown(events[0]);
      assert forall ev :: ev in events <==> ev == events[0] || ev in events[1..];
    }
  }

  /** The corrected test is the lister's own view of emptiness: a directory is
      empty exactly when listing it without a limit returns no name. */
  lemma IntendedIsUnlimitedListingEmpty(events: seq<DirEvent>)
    requires CountedIn(events) < 0x1_0000_0000
    ensures IsEmptyDirIntended(Opened(events)) <==> ReadDir(Opened(events), 0) == Ok([])
  {
    ReadDirUnbounded(events, 0);
    FirstFailureIff(events);
    ShownAllEmptyIff(events);
  }

  /** The intended test does not depend on enumeration order. */
  lemma IsEmptyDirIntendedOrderIndependent(e1: seq<DirEvent>, e2: seq<DirEvent>)
    requires multiset(e1) == multiset(e2)
    ensures IsEmptyDirIntended(Opened(e1)) == IsEmptyDirIntended(Opened(e2))
  {
    assert forall ev :: ev in e1 <==> ev in multiset(e1);
    assert forall ev :: ev in e2 <==> ev in multiset(e2);
  }

  /** The two tests differ only on entries that are neither files nor directories:
      an intended-empty directory is reported empty, and without such entries the
      two agree. */
  lemma IsEmptyDirVersusIntended(listing: Listing)
    ensures IsEmptyDirIntended(listing) ==> IsEmptyDir(listing)
    ensures listing.Opened? && (forall ev :: ev in listing.events && IsCounted(ev) ==> IsShown(ev))
            ==> IsEmptyDir(listing) == IsEmptyDirIntended(listing)
  {
    IsEmptyDirIff(listing);
  }

  /* ---------------------------------------------------------------------------
     is_empty_dir_except_xlmeta
     ------------------------------------------------------------------------- */

  predicate EndsWithSlash(s: string)
  {
    |s| > 0 && s[|s| - 1] == '/'
  }

  /** `trim_end_matches(SLASH_SEPARATOR)`: the text without all its trailing separators. */
  function TrimTrailingSlashes(s: string): (t: string)
    ensures t <= s && !EndsWithSlash(t)
    ensures forall i :: |t| <= i < |s| ==> s[i] == '/'
  {
    if EndsWithSlash(s) then TrimTrailingSlashes(s[..|s| - 1]) else s
  }

  /** A listed name that marks a nested object: a directory name (it ends with the
      separator) that, without the separator, is not a UUID. */
  function IsNestedObjectName(name: string, isUuid: string -> bool): (b: bool)
    // Names without a trailing separator (files) never qualify; a directory name
    // `n/` qualifies exactly when the bare name `n` is not a UUID.
    ensures !EndsWithSlash(name) ==> !b
    ensures EndsWithSlash(name) && !EndsWithSlash(name[..|name| - 1]) ==> (b <==> !isUuid(name[..|name| - 1]))
  {
    assert EndsWithSlash(name) && !EndsWithSlash(name[..|name| - 1])
           ==> TrimTrailingSlashes(name) == name[..|name| - 1];
    EndsWithSlash(name) && !isUuid(TrimTrailingSlashes(name))
  }

  /** `entries.iter().any(...)` over the listed names. */
  function AnyNested(names: seq<string>, isUuid: string -> bool): (b: bool)
    ensures b <==> exists i :: 0 <= i < |names| && IsNestedObjectName(names[i], isUuid)
  {
    if names == [] then false
    else IsNestedObjectName(names[0], isUuid) || AnyNested(names[1..], isUuid)
  }

  /** `is_empty_dir_except_xlmeta`: list without limit; true when no listed name
      marks a nested object, and true as well when the listing fails.
      `isUuid` stands for `uuid::Uuid::parse_str(..).is_ok()`. */
  function IsEmptyDirExceptXlMeta(listing: Listing, isUuid: string -> bool): (b: bool)
    ensures listing.OpenError? ==> b
    ensures ReadDir(listing, 0).Err? ==> b
  {
    match ReadDir(listing, 0)
    case Ok(names) => !AnyNested(names, isUuid)
    case Err(_) => true
  }

  /** An event whose listed name marks a nested object. */
  predicate ShowsNestedObject(ev: DirEvent, isUuid: string -> bool)
  {
    IsShown(ev) && IsNestedObjectName(Shown(ev.name, ev.fileType.kind)[0], isUuid)
  }

  lemma {:induction false} AnyNestedAppend(xs: seq<string>, ys: seq<string>, isUuid: string -> bool)
    ensures AnyNested(xs + ys, isUuid) == (AnyNested(xs, isUuid) || AnyNested(ys, isUuid))
  {
    if xs != [] {
      AnyNestedAppend(xs[1..], ys, isUuid);
      assert (xs + ys)[0] == xs[0];
      assert (xs + ys)[1..] == xs[1..] + ys;
    } else {
      assert xs + ys == ys;
    }
  }

  lemma {:induction false} ShownAllNested(events: seq<DirEvent>, isUuid: string -> bool)
    ensures AnyNested(ShownAll(events), isUuid)
        <==> exists ev :: ev in events && ShowsNestedObject(ev, isUuid)
  {
    if events != [] {
      var ev := events[0];
      var rest := events[1..];
      ShownAllNested(rest, isUuid);
      var head := if IsCounted(ev) then Shown(ev.name, ev.fileType.kind) else [];
      AnyNestedAppend(head, ShownAll(rest), isUuid);
      assert AnyNested(head, isUuid) <==> ShowsNestedObject(ev, isUuid);
      assert forall e :: e in events <==> e == ev || e in rest;
    }
  }

  /** A directory entry marks a nested object exactly when its name is not a UUID. */
  lemma DirectoryEntryNested(name: string, isUuid: string -> bool)
    requires !IsSkippedName(name) && !EndsWithSlash(name)
    ensures ShowsNestedObject(Entry(name, Kind(Directory)), isUuid) <==> !isUuid(name)
  {
    var shown := name + SlashSeparator;
    assert Shown(name, Directory)[0] == shown;
    assert EndsWithSlash(shown) && shown[..|shown| - 1] == name;
    assert TrimTrailingSlashes(shown) == TrimTrailingSlashes(name) == name;
  }

  /** A file entry never marks a nested object. */
  lemma FileEntryNotNested(name: string, isUuid: string -> bool)
    requires !EndsWithSlash(name)
    ensures !ShowsNestedObject(Entry(name, Kind(RegularFile)), isUuid)
  {
  }

  /** `is_empty_dir_except_xlmeta` is false exactly when the directory opens, the
      listing succeeds, and some listed name marks a nested object. */
  lemma ExceptXlMetaIff(listing: Listing, isUuid: string -> bool)
    requires listing.Opened? ==> CountedIn(listing.events) < 0x1_0000_0000
    ensures !IsEmptyDirExceptXlMeta(listing, isUuid)
        <==> listing.Opened?
             && (forall ev :: ev in listing.events ==> !IsFailing(ev))
             && (exists ev :: ev in listing.events && ShowsNestedObject(ev, isUuid))
  {
    if listing.Opened? {
      ReadDirUnbounded(listing.events, 0);
      FirstFailureIff(listing.events);
      ShownAllNested(listing.events, isUuid);
    }
  }

  /** The classification does not depend on enumeration order. */
  lemma ExceptXlMetaOrderIndependent(e1: seq<DirEvent>, e2: seq<DirEvent>, isUuid: string -> bool)
    requires multiset(e1) == multiset(e2)
    requires |e1| < 0x1_0000_0000
    ensures IsEmptyDirExceptXlMeta(Opened(e1), isUuid) == IsEmptyDirExceptXlMeta(Opened(e2), isUuid)
  {
    assert |e2| == |multiset(e2)| == |multiset(e1)| == |e1|;
    ExceptXlMetaIff(Opened(e1), isUuid);
    ExceptXlMetaIff(Opened(e2), isUuid);
    assert forall ev :: ev in e1 <==> ev in multiset(e1);
    assert forall ev :: ev in e2 <==> ev in multiset(e2);
  }

  /** Adding a regular file anywhere in the directory never changes the
      classification (file names never end with the separator). */
  lemma ExceptXlMetaIgnoresFiles(events: seq<DirEvent>, k: nat, name: string, isUuid: string -> bool)
    requires k <= |events| && |events| + 1 < 0x1_0000_0000
    requires !EndsWithSlash(name)
    ensures IsEmptyDirExceptXlMeta(Opened(events[..k] + [Entry(name, Kind(RegularFile))] + events[k..]), isUuid)
         == IsEmptyDirExceptXlMeta(Opened(events), isUuid)
  {
    FileEntryNotNested(name, isUuid);
    var file := Entry(name, Kind(RegularFile));
    var more := events[..k] + [file] + events[k..];
    assert events == events[..k] + events[k..];
    assert forall ev :: ev in more <==> ev == file || ev in events;
    ExceptXlMetaIff(Opened(more), isUuid);
    ExceptXlMetaIff(Opened(events), isUuid);
  }

  /** A directory whose entries are all files and directories (none ending in the
      separator), every directory among them named by a UUID, is leaf-only. */
  lemma LeafWhenEverySubdirIsUuid(events: seq<DirEvent>, isUuid: string -> bool)
    requires |events| < 0x1_0000_0000
    requires forall ev :: ev in events ==> ev.Entry? && ev.fileType.Kind? && !EndsWithSlash(ev.name)
    requires forall ev :: ev in events && ev.fileType.kind == Directory ==> isUuid(ev.name)
    ensures IsEmptyDirExceptXlMeta(Opened(events), isUuid)
  {
    forall ev | ev in events
      ensures !ShowsNestedObject(ev, isUuid)
    {
      if IsShown(ev) {
        if ev.fileType.kind == Directory {
          DirectoryEntryNested(ev.name, isUuid);
        } else {
          FileEntryNotNested(ev.name, isUuid);
        }
      }
    }
    ExceptXlMetaIff(Opened(events), isUuid);
  }

  /** One subdirectory whose name is not a UUID makes a directory that lists
      without failure hold a nested object. */
  lemma NonUuidSubdirIsNested(events: seq<DirEvent>, name: string, isUuid: string -> bool)
    requires |events| < 0x1_0000_0000
    requires forall ev :: ev in events ==> !IsFailing(ev)
    requires Entry(name, Kind(Directory)) in events
    requires !IsSkippedName(name) && !EndsWithSlash(name) && !isUuid(name)
    ensures !IsEmptyDirExceptXlMeta(Opened(events), isUuid)
  {
    DirectoryEntryNested(name, isUuid);
    ExceptXlMetaIff(Opened(events), isUuid);
  }

  /** An object directory holding `xl.meta` and a UUID-named data directory is
      leaf-only; adding the subdirectory `xyzzy` makes it hold a
      nested object; removing it again restores leaf-only. */
  lemma LeafObjectScenario(isUuid: string -> bool)
    requires isUuid("550e8400-e29b-41d4-a716-446655440000")
    requires !isUuid("xyzzy")
    ensures IsEmptyDirExceptXlMeta(Opened([Entry("xl.meta", Kind(RegularFile)),
                                           Entry("550e8400-e29b-41d4-a716-446655440000", Kind(Directory))]), isUuid)
    ensures !IsEmptyDirExceptXlMeta(Opened([Entry("xl.meta", Kind(RegularFile)),
                                            Entry("550e8400-e29b-41d4-a716-446655440000", Kind(Directory)),
                                            Entry("xyzzy", Kind(Directory))]), isUuid)
  {
    var meta := Entry("xl.meta", Kind(RegularFile));
    var data := Entry("550e8400-e29b-41d4-a716-446655440000", Kind(Directory));
    var nested := Entry("xyzzy", Kind(Directory));
    LeafWhenEverySubdirIsUuid([meta, data], isUuid);
    NonUuidSubdirIsNested([meta, data, nested], "xyzzy", isUuid);
  }

  /** An empty directory and one holding only `xl.meta` are leaf-only. */
  lemma MetaOnlyScenario(isUuid: string -> bool)
    ensures IsEmptyDirExceptXlMeta(Opened([]), isUuid)
    ensures IsEmptyDirExceptXlMeta(Opened([Entry("xl.meta", Kind(RegularFile))]), isUuid)
  {
  }

  /** A directory holding only `xl.meta` and UUID-named data directories is
      leaf-only, and one non-UUID subdirectory makes it hold a nested object. */
  lemma UuidDataDirsScenario(isUuid: string -> bool)
    requires isUuid("550e8400-e29b-41d4-a716-446655440000")
    requires isUuid("00000000-0000-0000-0000-000000000000")
    requires isUuid("ffffffff-ffff-ffff-ffff-ffffffffffff")
    requires !isUuid("nested")
    ensures IsEmptyDirExceptXlMeta(Opened([Entry("xl.meta", Kind(RegularFile)),
                                           Entry("550e8400-e29b-41d4-a716-446655440000", Kind(Directory)),
                                           Entry("00000000-0000-0000-0000-000000000000", Kind(Directory)),
                                           Entry("ffffffff-ffff-ffff-ffff-ffffffffffff", Kind(Directory))]), isUuid)
    ensures !IsEmptyDirExceptXlMeta(Opened([Entry("xl.meta", Kind(RegularFile)),
                                            Entry("550e8400-e29b-41d4-a716-446655440000", Kind(Directory)),
                                            Entry("00000000-0000-0000-0000-000000000000", Kind(Directory)),
                                            Entry("ffffffff-ffff-ffff-ffff-ffffffffffff", Kind(Directory)),
                                            Entry("nested", Kind(Directory))]), isUuid)
  {
    var meta := Entry("xl.meta", Kind(RegularFile));
    var d1 := Entry("550e8400-e29b-41d4-a716-446655440000", Kind(Directory));
    var d2 := Entry("00000000-0000-0000-0000-000000000000", Kind(Directory));
    var d3 := Entry("ffffffff-ffff-ffff-ffff-ffffffffffff", Kind(Directory));
    var nested := Entry("nested", Kind(Directory));
    LeafWhenEverySubdirIsUuid([meta, d1, d2, d3], isUuid);
    NonUuidSubdirIsNested([meta, d1, d2, d3, nested], "nested", isUuid);
  }
}
