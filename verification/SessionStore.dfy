/** The session store kept in a JSON file (internal/sessionstore/jsonstore.go). JSON is taken as a lossless
    encoding, and a save as the rename that replaces the whole file or leaves it as it was. */
module SessionStore {
  /** A session row or a favourite: its ID, its creation time and everything else. */
  datatype Row = Row(id: string, createdAt: int, rest: string)

  type Table = map<string, Row>

  datatype Data = Data(sessions: Table, favorites: Table)

  datatype Part = Absent | Present(table: Table)

  /** What the file holds: nothing, something that is not JSON, or the two tables, either of which may be
      missing or null. */
  datatype Content = Nothing | NotJson | Json(sessions: Part, favorites: Part)

  datatype Write = PutSession(row: Row) | DropSession(id: string) | PutFavorite(row: Row) | DropFavorite(id: string)

  // ----- what the operations compute -----------------------------------------------------------------

  function Or(p: Part, t: Table): Table {
    if p.Present? then p.table else t
  }

  /** What a process has after re-reading the file: what it had, where the file says nothing. */
  function Reload(d: Data, c: Content): Data {
    if c.Json? then Data(Or(c.sessions, d.sessions), Or(c.favorites, d.favorites)) else d
  }

  const EMPTY: Data := Data(map[], map[])

  function Encode(d: Data): Content {
    Json(Present(d.sessions), Present(d.favorites))
  }

  function Drop(t: Table, id: string): Table {
    map k | k in t && k != id :: t[k]
  }

  /** The plain effect of a write on the tables. */
  function Do(d: Data, w: Write): Data {
    match w
    case PutSession(r) => d.(sessions := d.sessions[r.id := r])
    case DropSession(id) => d.(sessions := Drop(d.sessions, id))
    case PutFavorite(r) => d.(favorites := d.favorites[r.id := r])
    case DropFavorite(id) => d.(favorites := Drop(d.favorites, id))
  }

  // ----- the store -----------------------------------------------------------------------------------

  class Disk {
    var content: Content

    constructor (c: Content)
      ensures content == c
    {
      content := c;
    }
  }

  /** The rows of a table in the order of these keys. */
  function RowsAt(t: Table, keys: seq<string>): seq<Row>
    requires forall k | k in keys :: k in t
  {
    seq(|keys|, i requires 0 <= i < |keys| => assert keys[i] in keys; t[keys[i]])
  }

  function Age(t: Table, k: string): int {
    if k in t then t[k].createdAt else 0
  }

  /** Oldest first. */
  predicate Ordered(t: Table, keys: seq<string>) {
    forall i, j | 0 <= i < j < |keys| :: Age(t, keys[i]) <= Age(t, keys[j])
  }

  /** Each row of the table exactly once, oldest first; rows of the same age in any order. */
  ghost predicate IsListing(t: Table, rows: seq<Row>) {
    && (exists keys :: multiset(keys) == multiset(t.Keys) && Listed(t, rows, keys))
    && (forall i, j | 0 <= i < j < |rows| :: rows[i].createdAt <= rows[j].createdAt)
  }

  ghost predicate Listed(t: Table, rows: seq<Row>, keys: seq<string>) {
    && (forall k | k in keys :: k in t)
    && |rows| == |keys| && forall i | 0 <= i < |keys| :: rows[i] == t[keys[i]]
  }

  class JSONStore {
    const disk: Disk
    var data: Data

    /** Opens the store; the file may be missing, foreign or incomplete. */
    constructor (disk: Disk)
      ensures this.disk == disk && data == Reload(EMPTY, disk.content)
    {
      this.disk := disk;
      data := Reload(EMPTY, disk.content);
    }

    method Save(ok: bool) returns (err: bool)
      modifies disk
      ensures err == !ok && disk.content == if ok then Encode(data) else old(disk.content)
    {
      if ok { disk.content := Encode(data); }
      err := !ok;
    }

    /** Re-reads the file; an unreadable one changes nothing. */
    method ReloadFile(readable: bool)
      modifies this
      ensures data == if readable then Reload(old(data), disk.content) else old(data)
      ensures data.sessions == (if readable && disk.content.Json? && disk.content.sessions.Present?
                                then disk.content.sessions.table else old(data.sessions))
      ensures data.favorites == (if readable && disk.content.Json? && disk.content.favorites.Present?
                                 then disk.content.favorites.table else old(data.favorites))
    {
      if readable {
        match disk.content {
          case Nothing =>
          case NotJson =>
          case Json(s, f) =>
            if s.Present? { data := data.(sessions := s.table); }
            if f.Present? { data := data.(favorites := f.table); }
        }
      }
    }

    method Upsert(r: Row, ok: bool) returns (err: bool)
      modifies this, disk
      ensures data == Do(old(data), PutSession(r))
      ensures err == !ok && disk.content == if ok then Encode(data) else old(disk.content)
    {
      data := data.(sessions := data.sessions[r.id := r]);
      err := Save(ok);
    }

    method Delete(id: string, ok: bool) returns (err: bool)
      modifies this, disk
      ensures data == Do(old(data), DropSession(id))
      ensures err == !ok && disk.content == if ok then Encode(data) else old(disk.content)
    {
      data := data.(sessions := Drop(data.sessions, id));
      err := Save(ok);
    }

    method UpsertFavorite(f: Row, ok: bool) returns (err: bool)
      modifies this, disk
      ensures data == Do(old(data), PutFavorite(f)) && data.sessions == old(data.sessions)
      ensures err == !ok && disk.content == if ok then Encode(data) else old(disk.content)
    {
      data := data.(favorites := data.favorites[f.id := f]);
      err := Save(ok);
    }

    method DeleteFavorite(id: string, ok: bool) returns (err: bool)
      modifies this, disk
      ensures data == Do(old(data), DropFavorite(id)) && data.sessions == old(data.sessions)
      ensures err == !ok && disk.content == if ok then Encode(data) else old(disk.content)
    {
      data := data.(favorites := Drop(data.favorites, id));
      err := Save(ok);
    }

    method Get(id: string, readable: bool) returns (found: bool, r: Row)
      modifies this
      ensures data == if readable then Reload(old(data), disk.content) else old(data)
      ensures found <==> id in data.sessions
      ensures found ==> r == data.sessions[id]
    {
      ReloadFile(readable);
      found, r := id in data.sessions, Row("", 0, "");
      if found { r := data.sessions[id]; }
    }

    method List(readable: bool) returns (rows: seq<Row>)
      modifies this
      ensures data == if readable then Reload(old(data), disk.content) else old(data)
      ensures IsListing(data.sessions, rows)
    {
      ReloadFile(readable);
      rows := SortedRows(data.sessions);
    }

    method ListFavorites(readable: bool) returns (rows: seq<Row>)
      modifies this
      ensures data == if readable then Reload(old(data), disk.content) else old(data)
      ensures IsListing(data.favorites, rows)
    {
      ReloadFile(readable);
      rows := SortedRows(data.favorites);
    }
  }

  /** Collects the rows in whatever order the map yields them and sorts them by creation time. */
  method SortedRows(t: Table) returns (rows: seq<Row>)
    ensures IsListing(t, rows)
  {
    var keys: seq<string>, left := [], t.Keys;
    while left != {}
      invariant left <= t.Keys && (forall k | k in keys :: k in t) && Ordered(t, keys)
      invariant multiset(keys) == multiset(t.Keys - left)
      decreases |left|
    {
      var k :| k in left;
      ghost var seen := t.Keys - left;
      left := left - {k};
      assert t.Keys - left == seen + {k};
      keys := Insert(t, keys, k);
    }
    rows := RowsAt(t, keys);
    assert Listed(t, rows, keys);
  }

  /** Puts the key behind all keys that are not younger. */
  method Insert(t: Table, keys: seq<string>, k: string) returns (out: seq<string>)
    requires k in t && (forall x | x in keys :: x in t) && Ordered(t, keys)
    ensures multiset(out) == multiset(keys) + multiset{k}
    ensures (forall x | x in out :: x in t) && Ordered(t, out)
  {
    var i := |keys|;
    while i > 0 && t[k].createdAt < t[keys[i - 1]].createdAt
      invariant 0 <= i <= |keys|
      invariant i < |keys| ==> Age(t, k) <= Age(t, keys[i])
    {
      i := i - 1;
    }
    out := InsertAt(keys, k, i);
    InsertKeepsOrder(t, keys, k, i);
  }

  function InsertAt(keys: seq<string>, k: string, i: nat): (out: seq<string>)
    requires i <= |keys|
    ensures multiset(out) == multiset(keys) + multiset{k}
    ensures forall x | x in out :: x in keys || x == k
  {
    assert keys == keys[..i] + keys[i..];
    keys[..i] + [k] + keys[i..]
  }

  lemma InsertKeepsOrder(t: Table, keys: seq<string>, k: string, i: nat)
    requires Ordered(t, keys) && i <= |keys|
    requires i > 0 ==> Age(t, keys[i - 1]) <= Age(t, k)
    requires i < |keys| ==> Age(t, k) <= Age(t, keys[i])
    ensures Ordered(t, keys[..i] + [k] + keys[i..])
  {
  }

  // ----- several processes on one file ---------------------------------------------------------------

  /** The file and what each process has in memory. */
  datatype Sys = Sys(file: Content, procs: map<nat, Data>)

  datatype Event = Open(p: nat) | Change(p: nat, w: Write, ok: bool) | Read(p: nat)

  predicate Enabled(s: Sys, e: Event) {
    e.Open? || e.p in s.procs
  }

  function Apply(s: Sys, e: Event): Sys
    requires Enabled(s, e)
  {
    match e
    case Open(p) => s.(procs := s.procs[p := Reload(EMPTY, s.file)])
    case Change(p, w, ok) =>
      var d := Do(s.procs[p], w);
      Sys(if ok then Encode(d) else s.file, s.procs[p := d])
    case Read(p) => s.(procs := s.procs[p := Reload(s.procs[p], s.file)])
  }

  /** From s the events lead to t, and only `writer` writes. */
  predicate Runs(s: Sys, writer: nat, es: seq<Event>, t: Sys)
    decreases |es|
  {
    if es == [] then s == t else
    Enabled(s, es[0]) && (es[0].Change? ==> es[0].p == writer) && Runs(Apply(s, es[0]), writer, es[1..], t)
  }

  /** What a read by this process gives. */
  function Seen(s: Sys, p: nat): Data
    requires p in s.procs
  {
    Reload(s.procs[p], s.file)
  }

  /** The writes of a run, one after the other, on plain tables. */
  function Plain(d: Data, es: seq<Event>): Data
    decreases |es|
  {
    if es == [] then d else Plain(if es[0].Change? then Do(d, es[0].w) else d, es[1..])
  }

  predicate AllSaved(es: seq<Event>) {
    forall k | 0 <= k < |es| :: es[k].Change? ==> es[k].ok
  }

  /** A store in which everyone would read d, and the writer has d in memory. */
  predicate Agreed(s: Sys, writer: nat, d: Data) {
    && Reload(EMPTY, s.file) == d
    && (writer in s.procs ==> s.procs[writer] == d)
    && (forall p | p in s.procs :: Seen(s, p) == d)
  }

  lemma {:induction false} RunAgrees(s: Sys, writer: nat, d: Data, es: seq<Event>, t: Sys)
    requires Agreed(s, writer, d) && Runs(s, writer, es, t) && AllSaved(es)
    ensures Agreed(t, writer, Plain(d, es))
    decreases |es|
  {
    if es != [] {
      RunAgrees(Apply(s, es[0]), writer, if es[0].Change? then Do(d, es[0].w) else d, es[1..], t);
    }
  }

  /** One writing process whose saves succeed, any number of readers, restarts of any of them, and any file
      to begin with: every read gives the plain tables the writes make. */
  lemma SingleWriterAgreement(file: Content, writer: nat, es: seq<Event>, t: Sys, p: nat)
    requires Runs(Sys(file, map[]), writer, es, t) && AllSaved(es) && p in t.procs
    ensures Seen(t, p) == Plain(Reload(EMPTY, file), es)
    ensures p == writer ==> t.procs[p] == Plain(Reload(EMPTY, file), es)
  {
    RunAgrees(Sys(file, map[]), writer, Reload(EMPTY, file), es, t);
    assert Seen(t, p) == Plain(Reload(EMPTY, file), es);
  }

  /** What one write does to the plain tables: the row written reads back, the one dropped is gone, and every other
      entry is as it was. */
  lemma DoExactly(d: Data, w: Write)
    ensures var e := Do(d, w);
      match w
      case PutSession(r) =>
        && e.favorites == d.favorites && SameBut(d.sessions, e.sessions, r.id)
        && r.id in e.sessions && e.sessions[r.id] == r
      case DropSession(id) => e.favorites == d.favorites && id !in e.sessions && SameBut(d.sessions, e.sessions, id)
      case PutFavorite(r) =>
        && e.sessions == d.sessions && SameBut(d.favorites, e.favorites, r.id)
        && r.id in e.favorites && e.favorites[r.id] == r
      case DropFavorite(id) => e.sessions == d.sessions && id !in e.favorites && SameBut(d.favorites, e.favorites, id)
  {
  }

  ghost predicate SameBut(a: Table, b: Table, id: string) {
    forall k | k != id :: (k in a <==> k in b) && (k in a ==> a[k] == b[k])
  }

  /** So a row that was written is read by every process, with the file reloaded, until it is written or dropped
      again. */
  lemma {:induction false} ReadsBack(d: Data, r: Row, es: seq<Event>)
    requires forall k | 0 <= k < |es| && es[k].Change? ::
      es[k].w != DropSession(r.id) && (es[k].w.PutSession? ==> es[k].w.row.id != r.id)
    requires r.id in d.sessions && d.sessions[r.id] == r
    ensures r.id in Plain(d, es).sessions && Plain(d, es).sessions[r.id] == r
    decreases |es|
  {
    if es != [] {
      assert forall k | 0 <= k < |es| - 1 :: es[1..][k] == es[k + 1];
      if es[0].Change? { DoExactly(d, es[0].w); }
      ReadsBack(if es[0].Change? then Do(d, es[0].w) else d, r, es[1..]);
    }
  }

  // ----- favourites and sessions ---------------------------------------------------------------------

  /** The writes to the sessions alone. */
  function SessionWrites(es: seq<Event>): seq<Event>
    decreases |es|
  {
    if es == [] then [] else
    (if es[0].Change? && (es[0].w.PutFavorite? || es[0].w.DropFavorite?) then [] else [es[0]]) + SessionWrites(es[1..])
  }

  /** Leaving out every write to the favourites changes no session. */
  lemma {:induction false} FavoritesNeverDisturb(a: Data, b: Data, es: seq<Event>)
    requires a.sessions == b.sessions
    ensures Plain(a, es).sessions == Plain(b, SessionWrites(es)).sessions
    decreases |es|
  {
    if es != [] {
      var e, rest := es[0], SessionWrites(es[1..]);
      var a' := if e.Change? then Do(a, e.w) else a;
      if e.Change? && (e.w.PutFavorite? || e.w.DropFavorite?) {
        FavoritesNeverDisturb(a', b, es[1..]);
        assert [] + rest == rest;
      } else {
        FavoritesNeverDisturb(a', if e.Change? then Do(b, e.w) else b, es[1..]);
        assert ([e] + rest)[1..] == rest;
      }
    }
  }

  // ----- when a save fails, and with two writers -----------------------------------------------------

  /** The tables but for the entry a write is about. */
  function Others(d: Data, w: Write): Data {
    match w
    case PutSession(r) => d.(sessions := Drop(d.sessions, r.id))
    case DropSession(id) => d.(sessions := Drop(d.sessions, id))
    case PutFavorite(r) => d.(favorites := Drop(d.favorites, r.id))
    case DropFavorite(id) => d.(favorites := Drop(d.favorites, id))
  }

  lemma DropSame(a: Table, b: Table, id: string)
    ensures Drop(a, id) == Drop(b, id) <==> forall k | k != id :: (k in a <==> k in b) && (k in a ==> a[k] == b[k])
  {
    if Drop(a, id) == Drop(b, id) {
      forall k | k != id ensures (k in a <==> k in b) && (k in a ==> a[k] == b[k]) {
        assert k in a <==> k in Drop(a, id);
        assert k in b <==> k in Drop(b, id);
        if k in a { assert Drop(a, id)[k] == a[k] && Drop(b, id)[k] == b[k]; }
      }
    }
  }

  /** A saved write by a process acts on what is in the file as the plain write does exactly when that
      process had in memory everything else the file holds: a second writer that has not read, or a process
      whose earlier save failed, changes more than its own entry. */
  lemma WriteIsPlainExactly(s: Sys, p: nat, w: Write, saved: Data)
    requires p in s.procs && s.file == Encode(saved)
    ensures Apply(s, Change(p, w, true)).file == Encode(Do(saved, w)) <==> Others(s.procs[p], w) == Others(saved, w)
  {
    var d := s.procs[p];
    match w {
      case PutSession(r) => DropSame(d.sessions, saved.sessions, r.id); PutSame(d.sessions, saved.sessions, r);
      case PutFavorite(r) => DropSame(d.favorites, saved.favorites, r.id); PutSame(d.favorites, saved.favorites, r);
      case DropSession(_) =>
      case DropFavorite(_) =>
    }
  }

  lemma PutSame(a: Table, b: Table, r: Row)
    ensures a[r.id := r] == b[r.id := r] <==> forall k | k != r.id :: (k in a <==> k in b) && (k in a ==> a[k] == b[k])
  {
    if a[r.id := r] == b[r.id := r] {
      forall k | k != r.id ensures (k in a <==> k in b) && (k in a ==> a[k] == b[k]) {
        assert k in a <==> k in a[r.id := r];
        assert k in b <==> k in b[r.id := r];
        if k in a { assert a[r.id := r][k] == a[k] && b[r.id := r][k] == b[k]; }
      }
    }
  }

  /** What becomes of a write whose save failed: the process's next read forgets it, and its next saved write
      stores it unless such a read came in between. */
  lemma FailedSaveFate(s: Sys, p: nat, r: Row, other: Row)
    requires p in s.procs && s.file == Encode(s.procs[p]) && r.id != other.id
    requires r.id in s.procs[p].sessions ==> s.procs[p].sessions[r.id] != r
    ensures var failed := Apply(s, Change(p, PutSession(r), false));
      var read := Apply(failed, Read(p));
      && read.procs[p] == s.procs[p]
      && Apply(failed, Change(p, PutSession(other), true)).file ==
           Encode(Do(Do(s.procs[p], PutSession(r)), PutSession(other)))
      && Apply(read, Change(p, PutSession(other), true)).file == Encode(Do(s.procs[p], PutSession(other)))
      && Do(Do(s.procs[p], PutSession(r)), PutSession(other)) != Do(s.procs[p], PutSession(other))
  {
    var d := s.procs[p];
    assert Do(Do(d, PutSession(r)), PutSession(other)).sessions[r.id] == r;
    assert r.id in Do(d, PutSession(other)).sessions ==> Do(d, PutSession(other)).sessions[r.id] == d.sessions[r.id];
  }
}
