/** Browser-local persistence of the progress record and the registry of named
    users. `localStorage` is a map from key to saved value; the active user and
    their in-memory record form the process-wide context. */
module Persistence {
  import opened Wrappers
  import opened Text
  import opened Progress

  /** A record as parsed back from storage. `None` is a field that is absent or
      `null`; `extras` names any further fields the stored document carries. */
  datatype Saved = Saved(
    completedDays: Option<int>,
    studiedWords: Option<int>,
    masteredWords: Option<int>,
    daysProgress: Option<map<int, DayStatus>>,
    wordStatus: Option<map<WordKey, Status>>,
    lastDayNumber: Option<int>,
    lastTypingDayStart: Option<int>,
    lastTypingDayEnd: Option<int>,
    lastMatchingDayStart: Option<int>,
    lastMatchingDayEnd: Option<int>,
    extras: set<string>)

  /** `x || d` for a number: absent, `null` and 0 are all falsy. */
  function OrNumber(x: Option<int>, d: int): (r: int)
    ensures x.Some? && x.value != 0 ==> r == x.value
    ensures x.None? || x.value == 0 ==> r == d
  {
    if x.Some? && x.value != 0 then x.value else d
  }

  /** `x || {}` for an object: every object is truthy, so only absence defaults. */
  function OrMap<K, V>(x: Option<map<K, V>>): map<K, V> {
    x.GetOr(map[])
  }

  /** `JSON.stringify(studyProgress)` parsed back: all ten fields present, nothing else. */
  function Save(p: Record): (s: Saved)
    ensures s.extras == {}
  {
    Saved(Some(p.completedDays), Some(p.studiedWords), Some(p.masteredWords),
          Some(p.daysProgress), Some(p.wordStatus), Some(p.lastDayNumber),
          Some(p.lastTypingDayStart), Some(p.lastTypingDayEnd),
          Some(p.lastMatchingDayStart), Some(p.lastMatchingDayEnd), {})
  }

  /** A record whose remembered settings are all non-zero, as every loaded record is. */
  predicate Normal(p: Record) {
    && p.lastDayNumber != 0
    && p.lastTypingDayStart != 0 && p.lastTypingDayEnd != 0
    && p.lastMatchingDayStart != 0 && p.lastMatchingDayEnd != 0
  }

  /** The record with each zero setting replaced by its default; the counters and
      maps default to values equal to their zero, so they stay as they are. */
  function Normalise(p: Record): (r: Record)
    ensures Normal(r)
    ensures Normal(p) ==> r == p
    ensures && r.completedDays == p.completedDays && r.studiedWords == p.studiedWords
            && r.masteredWords == p.masteredWords
            && r.daysProgress == p.daysProgress && r.wordStatus == p.wordStatus
    ensures p.lastDayNumber != 0 ==> r.lastDayNumber == p.lastDayNumber
    ensures p.lastDayNumber == 0 ==> r.lastDayNumber == 1
    ensures p.lastTypingDayStart != 0 ==> r.lastTypingDayStart == p.lastTypingDayStart
    ensures p.lastTypingDayStart == 0 ==> r.lastTypingDayStart == 1
    ensures p.lastTypingDayEnd != 0 ==> r.lastTypingDayEnd == p.lastTypingDayEnd
    ensures p.lastTypingDayEnd == 0 ==> r.lastTypingDayEnd == 100
    ensures p.lastMatchingDayStart != 0 ==> r.lastMatchingDayStart == p.lastMatchingDayStart
    ensures p.lastMatchingDayStart == 0 ==> r.lastMatchingDayStart == 1
    ensures p.lastMatchingDayEnd != 0 ==> r.lastMatchingDayEnd == p.lastMatchingDayEnd
    ensures p.lastMatchingDayEnd == 0 ==> r.lastMatchingDayEnd == 100
  {
    p.(lastDayNumber := if p.lastDayNumber == 0 then 1 else p.lastDayNumber,
       lastTypingDayStart := if p.lastTypingDayStart == 0 then 1 else p.lastTypingDayStart,
       lastTypingDayEnd := if p.lastTypingDayEnd == 0 then 100 else p.lastTypingDayEnd,
       lastMatchingDayStart := if p.lastMatchingDayStart == 0 then 1 else p.lastMatchingDayStart,
       lastMatchingDayEnd := if p.lastMatchingDayEnd == 0 then 100 else p.lastMatchingDayEnd)
  }

  /** `loadProgress` given what `getItem` returned: the ten listed fields with their
      `||` defaults, or the fresh record when nothing is stored. */
  function Load(saved: Option<Saved>): (r: Record)
    ensures saved.None? ==> r == Fresh
    ensures Normal(r)
    ensures saved.Some? ==>
      var s := saved.value;
      && r.completedDays == s.completedDays.GetOr(0)
      && r.studiedWords == s.studiedWords.GetOr(0)
      && r.masteredWords == s.masteredWords.GetOr(0)
      && r.daysProgress == s.daysProgress.GetOr(map[])
      && r.wordStatus == s.wordStatus.GetOr(map[])
      && r.lastDayNumber == OrNumber(s.lastDayNumber, 1)
      && r.lastTypingDayStart == OrNumber(s.lastTypingDayStart, 1)
      && r.lastTypingDayEnd == OrNumber(s.lastTypingDayEnd, 100)
      && r.lastMatchingDayStart == OrNumber(s.lastMatchingDayStart, 1)
      && r.lastMatchingDayEnd == OrNumber(s.lastMatchingDayEnd, 100)
  {
    match saved
    case None => Fresh
    case Some(s) =>
      Record(OrNumber(s.completedDays, 0), OrNumber(s.studiedWords, 0), OrNumber(s.masteredWords, 0),
             OrMap(s.daysProgress), OrMap(s.wordStatus),
             OrNumber(s.lastDayNumber, 1),
             OrNumber(s.lastTypingDayStart, 1), OrNumber(s.lastTypingDayEnd, 100),
             OrNumber(s.lastMatchingDayStart, 1), OrNumber(s.lastMatchingDayEnd, 100))
  }

  /** Saving a record and loading it back yields its normalised form. */
  lemma SaveLoadNormalises(p: Record)
    ensures Load(Some(Save(p))) == Normalise(p)
  {
  }

  /** Loading is idempotent under save-then-load. */
  lemma LoadIdempotent(saved: Option<Saved>)
    ensures Load(Some(Save(Load(saved)))) == Load(saved)
  {
    SaveLoadNormalises(Load(saved));
  }

  /** `localStorage`: the progress records under `studyProgress_<name>`, the user
      list under `userList` (absent reads as `[]`) and `currentUserName`. */
  datatype Storage = Storage(records: map<string, Saved>, userList: seq<string>, currentUserName: Option<string>)

  /** The active user, the in-memory record and storage. */
  datatype Context = Context(user: string, progress: Record, store: Storage)

  const DefaultUser: string := "default"

  function RecordKey(name: string): string {
    "studyProgress_" + name
  }

  lemma RecordKeyInjective(a: string, b: string)
    ensures RecordKey(a) == RecordKey(b) <==> a == b
  {
    if RecordKey(a) == RecordKey(b) {
      assert a == RecordKey(a)[14..];
      assert b == RecordKey(b)[14..];
    }
  }

  /** `loadProgress` for `name`. */
  function LoadFor(store: Storage, name: string): Record {
    var key := RecordKey(name);
    Load(if key in store.records then Some(store.records[key]) else None)
  }

  /** `saveProgress`: writes the in-memory record under the active user's key. */
  function SaveProgress(c: Context): (r: Context)
    ensures r.user == c.user && r.progress == c.progress
    ensures r.store.records.Keys == c.store.records.Keys + {RecordKey(c.user)}
    ensures LoadFor(r.store, c.user) == Normalise(c.progress)
    ensures forall n :: n != c.user ==> LoadFor(r.store, n) == LoadFor(c.store, n)
    ensures r.store.userList == c.store.userList && r.store.currentUserName == c.store.currentUserName
  {
    var r := c.(store := c.store.(records := c.store.records[RecordKey(c.user) := Save(c.progress)]));
    SaveLoadNormalises(c.progress);
    forall n | n != c.user
      ensures LoadFor(r.store, n) == LoadFor(c.store, n)
    {
      RecordKeyInjective(n, c.user);
    }
    r
  }

  /** `switchUser(name)`. Switching to the active user changes nothing; otherwise
      the outgoing record is saved, the pointer moved and the incoming record loaded
      (the re-initialisation of the visible mode that follows is not modelled). */
  function SwitchUser(c: Context, name: string): (r: Context)
    ensures name == c.user ==> r == c
    ensures name != c.user ==>
      && r.user == name
      && r.store.currentUserName == Some(name)
      && r.progress == LoadFor(c.store, name)
      && LoadFor(r.store, c.user) == Normalise(c.progress)
      && r.store.userList == c.store.userList
      && r.store.records.Keys == c.store.records.Keys + {RecordKey(c.user)}
    ensures forall n :: n != c.user ==> LoadFor(r.store, n) == LoadFor(c.store, n)
  {
    if name == c.user then c
    else
      var saved := SaveProgress(c).store;
      var store := saved.(currentUserName := Some(name));
      Context(name, LoadFor(store, name), store)
  }

  /** Switching away and back restores the outgoing user's record in its normalised
      form; statuses recorded under one user never appear under another. */
  lemma SwitchBackRestores(c: Context, other: string)
    requires other != c.user
    ensures SwitchUser(SwitchUser(c, other), c.user).progress == Normalise(c.progress)
    ensures SwitchUser(c, other).progress == LoadFor(c.store, other)
  {
  }

  predicate NoDuplicates(s: seq<string>) {
    forall i, j :: 0 <= i < j < |s| ==> s[i] != s[j]
  }

  /** `setUserName`: the trimmed input, unless empty or `default`, is added to the
      registry when missing and becomes the active user. */
  function SetUserName(c: Context, input: string): (r: Context)
    ensures var name := Trim(input);
      (|name| == 0 || name == DefaultUser) ==> r == c
    ensures var name := Trim(input);
      |name| > 0 && name != DefaultUser ==>
        && r.user == name
        && (forall u :: u in r.store.userList <==> u in c.store.userList || u == name)
        && (NoDuplicates(c.store.userList) ==> NoDuplicates(r.store.userList))
        && (name in c.store.userList ==> r.store.userList == c.store.userList)
    ensures var name := Trim(input);
      |name| > 0 && name != DefaultUser && name == c.user ==>
        r.progress == c.progress && r.store.records == c.store.records
        && r.store.currentUserName == c.store.currentUserName
    ensures var name := Trim(input);
      |name| > 0 && name != DefaultUser && name != c.user ==>
        && r.progress == LoadFor(c.store, name)
        && r.store.currentUserName == Some(name)
        && LoadFor(r.store, c.user) == Normalise(c.progress)
        && r.store.records.Keys == c.store.records.Keys + {RecordKey(c.user)}
        && (forall n :: n != c.user ==> LoadFor(r.store, n) == LoadFor(c.store, n))
  {
    var name := Trim(input);
    if |name| == 0 || name == DefaultUser then c
    else
      var users := if name in c.store.userList then c.store.userList else c.store.userList + [name];
      SwitchUser(c.(store := c.store.(userList := users)), name)
  }

  /** `users.filter(u => u !== name)`. */
  function Without(users: seq<string>, name: string): (r: seq<string>)
    ensures forall u :: u in r <==> u in users && u != name
    ensures NoDuplicates(users) ==> NoDuplicates(r)
    ensures |r| <= |users|
  {
    if |users| == 0 then []
    else
      var rest := Without(users[1..], name);
      assert forall u :: u in users <==> u == users[0] || u in users[1..];
      if users[0] == name then rest
      else
        assert NoDuplicates(users) ==> users[0] !in users[1..];
        [users[0]] + rest
  }

  /** `deleteUser(name)` once the confirmation dialog returned `confirmed`. The record
      and every registry entry for `name` are removed; deleting the active user then
      switches to `default`. */
  function DeleteUser(c: Context, name: string, confirmed: bool): (r: Context)
    ensures !confirmed ==> r == c
    ensures confirmed ==> name !in r.store.userList
    ensures confirmed ==> forall u :: u in r.store.userList <==> u in c.store.userList && u != name
    ensures confirmed ==> forall n :: n != name ==> LoadFor(r.store, n) == LoadFor(c.store, n)
    ensures confirmed && name != c.user ==>
      && r.store.records.Keys == c.store.records.Keys - {RecordKey(name)}
      && r.user == c.user && r.progress == c.progress
      && r.store.currentUserName == c.store.currentUserName
    ensures confirmed && name == c.user && name != DefaultUser ==>
      && r.user == DefaultUser && r.progress == LoadFor(c.store, DefaultUser)
      && r.store.currentUserName == Some(DefaultUser)
    ensures confirmed && name == c.user && name == DefaultUser ==>
      && r.store.records.Keys == c.store.records.Keys - {RecordKey(name)}
      && r.user == c.user && r.progress == c.progress
      && r.store.currentUserName == c.store.currentUserName
  {
    if !confirmed then c
    else
      var store := c.store.(records := c.store.records - {RecordKey(name)},
                            userList := Without(c.store.userList, name));
      var c1 := c.(store := store);
      RemovedKeepsOthers(c.store, name);
      if name == c.user then
        RecordKeyInjective(name, DefaultUser);
        SwitchUser(c1, DefaultUser)
      else c1
  }

  /** Removing one user's record leaves what every other user loads unchanged. */
  lemma RemovedKeepsOthers(store: Storage, name: string)
    ensures forall n :: n != name ==>
      LoadFor(store.(records := store.records - {RecordKey(name)}), n) == LoadFor(store, n)
  {
    forall n | n != name
      ensures LoadFor(store.(records := store.records - {RecordKey(name)}), n) == LoadFor(store, n)
    {
      RecordKeyInjective(n, name);
    }
  }

  /** As written, deleting the active user brings its record straight back: the
      fallback `switchUser('default')` first saves the outgoing record, still under
      the deleted name. */
  lemma DeleteActiveUserResaves(c: Context)
    requires c.user != DefaultUser
    ensures RecordKey(c.user) in DeleteUser(c, c.user, true).store.records
    ensures LoadFor(DeleteUser(c, c.user, true).store, c.user) == Normalise(c.progress)
  {
  }

  /** `deleteUser` as its branch for the active user evidently intends: fall back to
      `default` without writing the deleted user's record again. */
  function DeleteUserFixed(c: Context, name: string, confirmed: bool): (r: Context)
    ensures !confirmed ==> r == c
    ensures confirmed ==> RecordKey(name) !in r.store.records && name !in r.store.userList
    ensures confirmed ==> forall u :: u in r.store.userList <==> u in c.store.userList && u != name
    ensures confirmed ==> r.store.records.Keys == c.store.records.Keys - {RecordKey(name)}
    ensures confirmed ==> forall n :: n != name ==> LoadFor(r.store, n) == LoadFor(c.store, n)
    ensures confirmed && name != c.user ==>
      && r.user == c.user && r.progress == c.progress
      && r.store.currentUserName == c.store.currentUserName
    ensures confirmed && name == c.user ==>
      && r.user == DefaultUser
      && r.store.currentUserName == Some(DefaultUser)
      && (name != DefaultUser ==> r.progress == LoadFor(c.store, DefaultUser))
      && (name == DefaultUser ==> r.progress == Fresh)
  {
    if !confirmed then c
    else
      var store := c.store.(records := c.store.records - {RecordKey(name)},
                            userList := Without(c.store.userList, name));
      RemovedKeepsOthers(c.store, name);
      if name == c.user then
        RecordKeyInjective(name, DefaultUser);
        var moved := store.(currentUserName := Some(DefaultUser));
        Context(DefaultUser, LoadFor(moved, DefaultUser), moved)
      else c.(store := store)
  }
}
