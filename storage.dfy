/** The JSON-file-backed data store of the games catalog: one in-memory document
    holding the games collection and an aggregate statistics record, changed in
    place by the store's operations and written back to disk after each change. */
module Storage {
  import opened Seqs

  /** A catalog entry as the store keeps it (storage.ts:6-15). */
  datatype Game = Game(
    id: nat,
    title: string,
    category: string,
    iframeUrl: string,
    status: string,
    addedDate: string,
    playCount: int,
    thumbnail: string)

  /** The `{id, title}` pointer held in `mostPlayedGame`. */
  datatype GameRef = GameRef(id: nat, title: string)

  /** The aggregate statistics record (storage.ts:17-27). */
  datatype Stats = Stats(
    totalVisits: int,
    todayVisits: int,
    totalPlays: int,
    todayPlays: int,
    activeUsers: int,
    mostPlayedGame: Option<GameRef>)

  /** The whole persisted document (storage.ts:29-32). */
  datatype Document = Document(games: seq<Game>, stats: Stats)

  /** What `addGame` is given: a game without `id`, `addedDate` and `playCount`. */
  datatype Draft = Draft(
    title: string,
    category: string,
    iframeUrl: string,
    status: string,
    thumbnail: string)

  /** A `Partial<Game>`: every field may or may not be supplied. */
  datatype GameUpdate = GameUpdate(
    id: Option<nat>,
    title: Option<string>,
    category: Option<string>,
    iframeUrl: Option<string>,
    status: Option<string>,
    addedDate: Option<string>,
    playCount: Option<int>,
    thumbnail: Option<string>)

  /** The argument of `incrementStats`. */
  datatype StatKind = Visits | Plays

  // ---------------------------------------------------------------------------
  // Loading

  /** What `readData` yields: the parsed document when the file could be read and
      parsed (`file` is `Some`), the empty document with zeroed counters otherwise. */
  function ReadData(file: Option<Document>): (d: Document)
    ensures file.Some? ==> d == file.value
    ensures file.None? ==> d.games == []
    ensures file.None? ==> d.stats.totalVisits == 0 && d.stats.todayVisits == 0
    ensures file.None? ==> d.stats.totalPlays == 0 && d.stats.todayPlays == 0
    ensures file.None? ==> d.stats.activeUsers == 0 && d.stats.mostPlayedGame == None
  {
    match file
    case Some(doc) => doc
    case None => Document([], Stats(0, 0, 0, 0, 0, None))
  }

  // ---------------------------------------------------------------------------
  // Identifiers

  /** The predicate `game => game.id === id` of `find` and `findIndex`. */
  function MatchesId(id: nat): Game -> bool {
    (g: Game) => g.id == id
  }

  /** The predicate `game => game.id !== id` of the `filter` in `deleteGame`. */
  function OtherId(id: nat): Game -> bool {
    (g: Game) => g.id != id
  }

  /** Some record carries `id`. */
  predicate HasId(gs: seq<Game>, id: nat) {
    exists i :: 0 <= i < |gs| && gs[i].id == id
  }

  /** No two records share an id. */
  predicate UniqueIds(gs: seq<Game>) {
    forall i, j :: 0 <= i < j < |gs| ==> gs[i].id != gs[j].id
  }

  /** `Math.max(0, ...games.map(g => g.id))`: the largest id, or 0 for no records. */
  function MaxId(gs: seq<Game>): (m: nat)
    ensures forall i :: 0 <= i < |gs| ==> gs[i].id <= m
    ensures m == 0 || HasId(gs, m)
  {
    if gs == [] then 0
    else
      var rest := MaxId(gs[1..]);
      assert forall i :: 1 <= i < |gs| ==> gs[i] == gs[1..][i - 1];
      if gs[0].id >= rest then gs[0].id else rest
  }

  /** The id `addGame` hands out: one more than the largest existing id. */
  function NextId(gs: seq<Game>): (n: nat)
    ensures n >= 1
    ensures forall i :: 0 <= i < |gs| ==> gs[i].id < n
    ensures !HasId(gs, n)
    ensures n == 1 || HasId(gs, n - 1)
  {
    MaxId(gs) + 1
  }

  // ---------------------------------------------------------------------------
  // Dates

  /** `s.split('T')[0]`: the part of an ISO timestamp before its first 'T'
      (the whole string when there is none). */
  function DatePart(s: string): (r: string)
    ensures |r| <= |s| && r == s[..|r|]
    ensures 'T' !in r
    ensures |r| < |s| ==> s[|r|] == 'T'
  {
    if s == [] || s[0] == 'T' then []
    else [s[0]] + DatePart(s[1..])
  }

  // ---------------------------------------------------------------------------
  // Records

  /** The record `addGame` builds from `draft` against the collection `gs`, with
      `date` as the day it was added. */
  function NewGame(gs: seq<Game>, draft: Draft, date: string): (g: Game)
    ensures g.id >= 1 && !HasId(gs, g.id)
    ensures forall i :: 0 <= i < |gs| ==> gs[i].id < g.id
    ensures g.id == 1 || HasId(gs, g.id - 1)
    ensures g.playCount == 0 && g.addedDate == date
    ensures g.title == draft.title && g.category == draft.category
    ensures g.iframeUrl == draft.iframeUrl && g.status == draft.status
    ensures g.thumbnail == draft.thumbnail
  {
    Game(NextId(gs), draft.title, draft.category, draft.iframeUrl, draft.status,
         date, 0, draft.thumbnail)
  }

  /** `after` is `o`'s value if `o` is supplied and `before` otherwise. */
  predicate Overwrites<T(==)>(o: Option<T>, before: T, after: T) {
    (o.Some? ==> after == o.value) && (o.None? ==> after == before)
  }

  function Pick<T>(o: Option<T>, before: T): T {
    if o.Some? then o.value else before
  }

  /** `{...g, ...u}`: a shallow merge of a partial record onto a record. */
  function Merge(g: Game, u: GameUpdate): (r: Game)
    ensures Overwrites(u.id, g.id, r.id)
    ensures Overwrites(u.title, g.title, r.title)
    ensures Overwrites(u.category, g.category, r.category)
    ensures Overwrites(u.iframeUrl, g.iframeUrl, r.iframeUrl)
    ensures Overwrites(u.status, g.status, r.status)
    ensures Overwrites(u.addedDate, g.addedDate, r.addedDate)
    ensures Overwrites(u.playCount, g.playCount, r.playCount)
    ensures Overwrites(u.thumbnail, g.thumbnail, r.thumbnail)
  {
    Game(Pick(u.id, g.id), Pick(u.title, g.title), Pick(u.category, g.category),
         Pick(u.iframeUrl, g.iframeUrl), Pick(u.status, g.status),
         Pick(u.addedDate, g.addedDate), Pick(u.playCount, g.playCount),
         Pick(u.thumbnail, g.thumbnail))
  }

  /** The partial record that supplies no field. */
  const NoUpdate := GameUpdate(None, None, None, None, None, None, None, None)

  /** Merging an empty partial record changes nothing. */
  lemma MergeNothing(g: Game)
    ensures Merge(g, NoUpdate) == g
  {
  }

  /** The partial record with the fields of `v`, and those of `u` where `v` has none. */
  function Override(u: GameUpdate, v: GameUpdate): GameUpdate {
    GameUpdate(
      if v.id.Some? then v.id else u.id,
      if v.title.Some? then v.title else u.title,
      if v.category.Some? then v.category else u.category,
      if v.iframeUrl.Some? then v.iframeUrl else u.iframeUrl,
      if v.status.Some? then v.status else u.status,
      if v.addedDate.Some? then v.addedDate else u.addedDate,
      if v.playCount.Some? then v.playCount else u.playCount,
      if v.thumbnail.Some? then v.thumbnail else u.thumbnail)
  }

  /** Two successive updates act as one update whose later fields win; in
      particular repeating an update changes nothing more. */
  lemma MergeTwice(g: Game, u: GameUpdate, v: GameUpdate)
    ensures Merge(Merge(g, u), v) == Merge(g, Override(u, v))
    ensures Merge(Merge(g, u), u) == Merge(g, u)
  {
  }

  // ---------------------------------------------------------------------------
  // The collection after each operation

  /** The collection after `deleteGame(id)`. */
  function Remove(gs: seq<Game>, id: nat): (r: seq<Game>)
    ensures |r| <= |gs|
    ensures forall i :: 0 <= i < |r| ==> r[i].id != id && r[i] in gs
  {
    Filter(gs, OtherId(id))
  }

  /** After `deleteGame(id)` no record has `id`; every other record keeps its number
      of occurrences; the collection shrinks exactly when `id` was present, and is
      unchanged otherwise. */
  lemma RemoveSpec(gs: seq<Game>, id: nat)
    ensures !HasId(Remove(gs, id), id)
    ensures forall g: Game :: g.id != id ==> multiset(Remove(gs, id))[g] == multiset(gs)[g]
    ensures |Remove(gs, id)| < |gs| <==> HasId(gs, id)
    ensures !HasId(gs, id) ==> Remove(gs, id) == gs
  {
    FilterKeepsAll(gs, OtherId(id));
    forall g: Game | g.id != id
      ensures multiset(Remove(gs, id))[g] == multiset(gs)[g]
    {
      FilterCounts(gs, OtherId(id), g);
    }
  }

  /** Removing records by id keeps ids pairwise distinct. */
  lemma {:induction false} RemoveKeepsUnique(gs: seq<Game>, id: nat)
    requires UniqueIds(gs)
    ensures UniqueIds(Remove(gs, id))
  {
    if gs != [] {
      var rest := Remove(gs[1..], id);
      RemoveKeepsUnique(gs[1..], id);
      assert Remove(gs, id) == (if gs[0].id != id then [gs[0]] else []) + rest;
      forall j | 0 <= j < |rest|
        ensures rest[j].id != gs[0].id
      {
        var k :| 0 <= k < |gs[1..]| && gs[1..][k] == rest[j];
        assert gs[k + 1] == rest[j];
      }
    }
  }

  /** Appending a record whose id exceeds every existing id keeps ids distinct. */
  lemma AppendFreshKeepsUnique(gs: seq<Game>, g: Game)
    requires UniqueIds(gs)
    requires forall i :: 0 <= i < |gs| ==> gs[i].id < g.id
    ensures UniqueIds(gs + [g])
  {
  }

  /** The collection after a run of `addGame` calls, each with its draft and the
      date of the call. */
  function AddAll(gs: seq<Game>, calls: seq<(Draft, string)>): (r: seq<Game>)
    ensures |r| == |gs| + |calls|
    ensures r[..|gs|] == gs
    decreases |calls|
  {
    if calls == [] then gs
    else AddAll(gs + [NewGame(gs, calls[0].0, calls[0].1)], calls[1..])
  }

  /** Any run of `addGame` calls keeps the earlier records as a prefix, adds one
      record per call, and keeps ids pairwise distinct. */
  lemma {:induction false} AddAllKeepsUnique(gs: seq<Game>, calls: seq<(Draft, string)>)
    requires UniqueIds(gs)
    ensures |AddAll(gs, calls)| == |gs| + |calls|
    ensures AddAll(gs, calls)[..|gs|] == gs
    ensures UniqueIds(AddAll(gs, calls))
    decreases |calls|
  {
    if calls != [] {
      var g := NewGame(gs, calls[0].0, calls[0].1);
      AppendFreshKeepsUnique(gs, g);
      AddAllKeepsUnique(gs + [g], calls[1..]);
      assert (gs + [g])[..|gs|] == gs;
    }
  }

  /** Starting from the empty collection of a failed read, ids handed out by
      `addGame` never collide. */
  lemma AddAllFromEmpty(calls: seq<(Draft, string)>)
    ensures UniqueIds(AddAll(ReadData(None).games, calls))
  {
    AddAllKeepsUnique([], calls);
  }

  /** `updateGame` keeps ids distinct when the update leaves the id alone, rewrites
      it to itself, or gives an id no record has. */
  lemma UpdateKeepsUnique(gs: seq<Game>, k: nat, u: GameUpdate)
    requires UniqueIds(gs) && k < |gs|
    requires u.id.None? || u.id.value == gs[k].id || !HasId(gs, u.id.value)
    ensures UniqueIds(gs[k := Merge(gs[k], u)])
  {
  }

  /** A record in the collection whose id is `id`, preceded by none with that id. */
  predicate IsFirstWithId(gs: seq<Game>, id: nat, g: Game) {
    exists k :: 0 <= k < |gs| && gs[k] == g && g.id == id &&
      forall j :: 0 <= j < k ==> gs[j].id != id
  }

  // ---------------------------------------------------------------------------
  // The store

  /** The data store. `data` is the in-memory document; `saves` counts the calls
      of `saveData`, i.e. the full rewrites of the data file. */
  class Store {
    var data: Document
    ghost var saves: nat

    /** Loads the document (`readData`); `file` is the parsed content of the data
        file, or `None` when reading or parsing failed. */
    constructor (file: Option<Document>)
      ensures data == ReadData(file)
      ensures saves == 0
    {
      data := ReadData(file);
      saves := 0;
    }

    /** `saveData`: writes the whole document; a failed write is swallowed. */
    method SaveData()
      modifies this
      ensures data == old(data)
      ensures saves == old(saves) + 1
    {
      saves := saves + 1;
    }

    /** `getGames`: the whole collection, in insertion order. */
    method GetGames() returns (gs: seq<Game>)
      ensures gs == data.games
    {
      gs := data.games;
    }

    /** `getGame`: the first record with the given id, or nothing. */
    method GetGame(id: nat) returns (r: Option<Game>)
      ensures r.None? <==> !HasId(data.games, id)
      ensures r.Some? ==> IsFirstWithId(data.games, id, r.value)
    {
      r := Find(data.games, MatchesId(id));
      FindIsAtFindIndex(data.games, MatchesId(id));
      if r.Some? {
        var k := FindIndex(data.games, MatchesId(id));
        assert data.games[k] == r.value;
      }
    }

    /** `addGame`: appends a new record with a fresh id, the date part of `now`
        and no plays, then saves. */
    method AddGame(draft: Draft, now: string) returns (g: Game)
      modifies this
      ensures g == NewGame(old(data.games), draft, DatePart(now))
      ensures data.games == old(data.games) + [g]
      ensures data.stats == old(data.stats)
      ensures UniqueIds(old(data.games)) ==> UniqueIds(data.games)
      ensures saves == old(saves) + 1
    {
      g := NewGame(data.games, draft, DatePart(now));
      if UniqueIds(data.games) {
        AppendFreshKeepsUnique(data.games, g);
      }
      data := data.(games := data.games + [g]);
      SaveData();
    }

    /** `updateGame`: merges `updates` onto the first record with `id` and saves,
        or returns nothing and changes nothing when no record has `id`. */
    method UpdateGame(id: nat, updates: GameUpdate) returns (r: Option<Game>)
      modifies this
      ensures r.None? <==> !HasId(old(data.games), id)
      ensures r.None? ==> data == old(data) && saves == old(saves)
      ensures r.Some? ==>
        var k := FindIndex(old(data.games), MatchesId(id));
        0 <= k < |old(data.games)| && old(data.games)[k].id == id &&
        (forall j :: 0 <= j < k ==> old(data.games)[j].id != id) &&
        r.value == Merge(old(data.games)[k], updates) &&
        |data.games| == |old(data.games)| &&
        data.games[k] == r.value &&
        (forall j :: 0 <= j < |data.games| && j != k ==> data.games[j] == old(data.games)[j]) &&
        data.stats == old(data.stats) &&
        saves == old(saves) + 1
    {
      var index := FindIndex(data.games, MatchesId(id));
      if index == -1 {
        return None;
      }
      data := data.(games := data.games[index := Merge(data.games[index], updates)]);
      SaveData();
      r := Some(data.games[index]);
    }

    /** `deleteGame`: drops every record with `id`; saves and reports `true` only
        when something was removed. */
    method DeleteGame(id: nat) returns (removed: bool)
      modifies this
      ensures removed <==> HasId(old(data.games), id)
      ensures data.games == Remove(old(data.games), id)
      ensures !HasId(data.games, id)
      ensures data.stats == old(data.stats)
      ensures saves == if removed then old(saves) + 1 else old(saves)
    {
      var initialLength := |data.games|;
      RemoveSpec(data.games, id);
      data := data.(games := Remove(data.games, id));
      if |data.games| != initialLength {
        SaveData();
        return true;
      }
      return false;
    }

    /** `getStats`: the stored statistics record. */
    method GetStats() returns (s: Stats)
      ensures s == data.stats
    {
      s := data.stats;
    }

    /** `incrementStats`: adds one to the total and the today counter of `kind`,
        then saves. */
    method IncrementStats(kind: StatKind)
      modifies this
      ensures data.games == old(data.games)
      ensures kind == Visits ==> data.stats == old(data.stats).(
        totalVisits := old(data.stats.totalVisits) + 1,
        todayVisits := old(data.stats.todayVisits) + 1)
      ensures kind == Plays ==> data.stats == old(data.stats).(
        totalPlays := old(data.stats.totalPlays) + 1,
        todayPlays := old(data.stats.todayPlays) + 1)
      ensures saves == old(saves) + 1
    {
      if kind == Visits {
        data := data.(stats := data.stats.(totalVisits := data.stats.totalVisits + 1));
        data := data.(stats := data.stats.(todayVisits := data.stats.todayVisits + 1));
      } else {
        data := data.(stats := data.stats.(totalPlays := data.stats.totalPlays + 1));
        data := data.(stats := data.stats.(todayPlays := data.stats.todayPlays + 1));
      }
      SaveData();
    }

    /** `resetDailyStats`: zeroes both today counters, then saves. */
    method ResetDailyStats()
      modifies this
      ensures data.games == old(data.games)
      ensures data.stats == old(data.stats).(todayVisits := 0, todayPlays := 0)
      ensures saves == old(saves) + 1
    {
      data := data.(stats := data.stats.(todayVisits := 0));
      data := data.(stats := data.stats.(todayPlays := 0));
      SaveData();
    }
  }

  // ---------------------------------------------------------------------------
  // Scenarios

  /** Two visits on a fresh store, then a daily reset: the totals survive and the
      today counter goes back to zero. */
  method VisitsThenReset() returns (before: Stats, after: Stats)
    ensures before.totalVisits == 2 && before.todayVisits == 2
    ensures after.totalVisits == 2 && after.todayVisits == 0
    ensures after.totalPlays == before.totalPlays == 0
  {
    var store := new Store(None);
    store.IncrementStats(Visits);
    store.IncrementStats(Visits);
    before := store.GetStats();
    store.ResetDailyStats();
    after := store.GetStats();
  }

  /** On a fresh store, the first added game gets id 1 and is found again by it;
      deleting an id that no record carries reports nothing removed. */
  method AddFindDelete(draft: Draft, now: string) returns (g: Game, found: Option<Game>, removed: bool)
    ensures g.id == 1 && g.playCount == 0
    ensures found == Some(g)
    ensures !removed
  {
    var store := new Store(None);
    g := store.AddGame(draft, now);
    found := store.GetGame(1);
    removed := store.DeleteGame(2);
  }
}
