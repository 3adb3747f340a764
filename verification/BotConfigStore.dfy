/** Bot configurations waiting in Redis for the database, and the persister that carries them over. */
module BotConfigStore {
  import opened Wrappers

  type Character = string
  type Nonce = nat
  type Config = string

  /** The text of one hash field: an envelope `{ id, config }`, or anything else. */
  datatype Entry = Envelope(id: Nonce, config: Config) | Corrupt(text: string)

  type Hash = map<Character, Entry>

  function Lookup(hash: Hash, c: Character): Option<Entry> { if c in hash then Some(hash[c]) else None }

  /** Compare-and-delete: the field goes only while it still holds that very text. */
  function Acknowledged(hash: Hash, c: Character, entry: Entry): (after: Hash)
    ensures forall d :: d in after <==> d in hash && !(d == c && hash[c] == entry)
    ensures forall d :: d in after ==> after[d] == hash[d]
  {
    if Lookup(hash, c) == Some(entry) then hash - {c} else hash
  }

  datatype Row = Row(config: Option<Config>, deleted: bool)

  type Rows = map<Character, Row>

  predicate Writable(rows: Rows, c: Character) { c in rows && !rows[c].deleted }

  function Written(rows: Rows, c: Character, config: Config): Rows
    requires c in rows
  {
    rows[c := rows[c].(config := Some(config))]
  }

  // ---------------------------------------------------------------- the store

  class Store {
    var pending: Hash
    var corrupt: Hash

    method Save(c: Character, config: Config, nonce: Nonce)
      modifies this`pending
      ensures pending == old(pending)[c := Envelope(nonce, config)]
    {
      pending := pending[c := Envelope(nonce, config)];
    }

    method HasPending(c: Character) returns (has: bool)
      ensures has == (c in pending)
    {
      has := c in pending;
    }

    method Load(c: Character) returns (entry: Option<Entry>)
      ensures entry == Lookup(pending, c)
    {
      entry := if c in pending then Some(pending[c]) else None;
    }

    method Acknowledge(c: Character, entry: Entry)
      modifies this`pending
      ensures pending == Acknowledged(old(pending), c, entry)
    {
      if c in pending && pending[c] == entry { pending := map d | d in pending && d != c :: pending[d]; }
    }

    method Quarantine(c: Character, entry: Entry)
      modifies this
      ensures corrupt == old(corrupt)[c := entry]
      ensures pending == Acknowledged(old(pending), c, entry)
    {
      corrupt := corrupt[c := entry];
      Acknowledge(c, entry);
    }
  }

  class Database {
    var rows: Rows

    method Update(c: Character, config: Config)
      requires c in rows
      modifies this
      ensures rows == Written(old(rows), c, config)
    {
      rows := rows[c := rows[c].(config := Some(config))];
    }
  }

  /** One undisturbed settling: the entry leaves the queue, for the row if it is writable, for quarantine if it is corrupt. */
  method SettleBotConfig(c: Character, store: Store, database: Database) returns (written: nat)
    modifies store, database
    ensures store.pending == old(store.pending) - {c}
    ensures var entry := Lookup(old(store.pending), c);
      && (written == 1 <==> entry.Some? && entry.value.Envelope? && Writable(old(database.rows), c))
      && (written == 1 ==> database.rows == Written(old(database.rows), c, entry.value.config))
      && (written != 1 ==> written == 0 && database.rows == old(database.rows))
      && store.corrupt == if entry.Some? && entry.value.Corrupt? then old(store.corrupt)[c := entry.value] else old(store.corrupt)
  {
    var has := store.HasPending(c);
    if !has { return 0; }
    var writable := c in database.rows && !database.rows[c].deleted;
    var pending := store.Load(c);
    // Undisturbed, the load under the lock finds what the first look saw; the steps below take the other case too.
    if pending.value.Corrupt? {
      store.Quarantine(c, pending.value);
      return 0;
    }
    if writable { database.Update(c, pending.value.config); }
    store.Acknowledge(c, pending.value);
    written := if writable then 1 else 0;
  }

  // ---------------------------------------------------------------- interleavings

  type Worker = nat

  /** How far one worker has come with one character. */
  datatype Work =
    | Idle
    | Checked(c: Character)
    | Locked(c: Character, writable: bool)
    | Loaded(c: Character, writable: bool, entry: Entry)
    | Quarantining(c: Character, entry: Entry)

  /** Redis, the database, the workers, the acknowledgements sent and the nonces drawn so far. */
  datatype State = State(
    pending: Hash,
    corrupt: Hash,
    rows: Rows,
    workers: map<Worker, Work>,
    sent: set<(Character, Entry)>,
    issued: set<Nonce>)

  /** One atomic step of somebody. An acknowledgement sent may arrive at any later time, again and again, or never. */
  datatype Action =
    | Save(c: Character, id: Nonce, config: Config)
    | Spoil(c: Character, text: string)
    | Delete(c: Character)
    | Check(w: Worker, c: Character)
    | Lock(w: Worker)
    | Load(w: Worker)
    | Commit(w: Worker)
    | Quarantine(w: Worker)
    | Crash(w: Worker)
    | Deliver(c: Character, entry: Entry)

  predicate InTransaction(work: Work) { work.Locked? || work.Loaded? }

  /** Whether the worker holds the lock on the row of `c`. */
  predicate Holds(work: Work, c: Character) { InTransaction(work) && work.c == c }

  ghost predicate Free(s: State, c: Character) {
    c in s.rows ==> forall w :: w in s.workers ==> !Holds(s.workers[w], c)
  }

  function At(s: State, w: Worker): Work { if w in s.workers then s.workers[w] else Idle }

  ghost predicate Enabled(s: State, a: Action) {
    match a
    case Save(c, id, config) => id !in s.issued
    case Spoil(c, text) => true
    case Delete(c) => c in s.rows && Free(s, c)
    case Check(w, c) => At(s, w).Idle? && c in s.pending
    case Lock(w) => At(s, w).Checked? && Free(s, At(s, w).c)
    case Load(w) => At(s, w).Locked?
    case Commit(w) => At(s, w).Loaded?
    case Quarantine(w) => At(s, w).Quarantining?
    case Crash(w) => true
    case Deliver(c, entry) => (c, entry) in s.sent
  }

  function Move(s: State, w: Worker, work: Work): State { s.(workers := s.workers[w := work]) }

  ghost function Step(s: State, a: Action): State
    requires Enabled(s, a)
  {
    match a
    case Save(c, id, config) => s.(pending := s.pending[c := Envelope(id, config)], issued := s.issued + {id})
    case Spoil(c, text) => s.(pending := s.pending[c := Corrupt(text)])
    case Delete(c) => s.(rows := s.rows[c := s.rows[c].(deleted := true)])
    case Check(w, c) => Move(s, w, Checked(c))
    case Lock(w) => Move(s, w, Locked(At(s, w).c, Writable(s.rows, At(s, w).c)))
    case Load(w) =>
      var c := At(s, w).c;
      (match Lookup(s.pending, c)
       case None => Move(s, w, Idle)
       case Some(entry) =>
         Move(s, w, if entry.Corrupt? then Quarantining(c, entry) else Loaded(c, At(s, w).writable, entry)))
    case Commit(w) =>
      var work := At(s, w);
      Move(s, w, Idle).(
        rows := if work.writable && work.c in s.rows && work.entry.Envelope?
                then Written(s.rows, work.c, work.entry.config) else s.rows,
        sent := s.sent + {(work.c, work.entry)})
    case Quarantine(w) =>
      var work := At(s, w);
      Move(s, w, Idle).(corrupt := s.corrupt[work.c := work.entry], sent := s.sent + {(work.c, work.entry)})
    case Crash(w) => Move(s, w, Idle)
    case Deliver(c, entry) => s.(pending := Acknowledged(s.pending, c, entry))
  }

  /** Whether the whole list of actions can be taken from here, each enabled in its turn. */
  ghost predicate Possible(s: State, actions: seq<Action>)
    decreases |actions|
  {
    actions == [] || (Enabled(s, actions[0]) && Possible(Step(s, actions[0]), actions[1..]))
  }

  ghost function After(s: State, actions: seq<Action>): State
    requires Possible(s, actions)
    decreases |actions|
  {
    if actions == [] then s else After(Step(s, actions[0]), actions[1..])
  }

  /** What was last written to each field by a save, or by whoever spoils entries. */
  function LastWritten(last: Hash, actions: seq<Action>): Hash
    decreases |actions|
  {
    if actions == [] then last else LastWritten(NextLast(last, actions[0]), actions[1..])
  }

  function NextLast(last: Hash, a: Action): Hash {
    match a
    case Save(c, id, config) => last[c := Envelope(id, config)]
    case Spoil(c, text) => last[c := Corrupt(text)]
    case _ => last
  }

  /** Nothing is under way yet; the hashes and the rows are arbitrary. */
  ghost predicate Start(s: State) {
    s.workers == map[] && s.sent == {} && forall c :: c in s.pending && s.pending[c].Envelope? ==> s.pending[c].id in s.issued
  }

  // ---------------------------------------------------------------- the invariant

  /** The database has it, unless the character is gone. */
  ghost predicate Settled(s: State, c: Character, entry: Entry) {
    Writable(s.rows, c) && entry.Envelope? ==> s.rows[c].config == Some(entry.config)
  }

  /** Nobody is about to write anything else over it. */
  ghost predicate NoRival(s: State, c: Character, entry: Entry) {
    Writable(s.rows, c) ==>
      forall w :: w in s.workers && s.workers[w].Loaded? && s.workers[w].c == c ==> s.workers[w].entry == entry
  }

  ghost predicate Safe(s: State, c: Character, entry: Entry) {
    entry.Envelope? ==> Settled(s, c, entry) && NoRival(s, c, entry)
  }

  predicate Issued(s: State, entry: Entry) { entry.Envelope? ==> entry.id in s.issued }

  ghost predicate PendingIsLast(s: State, last: Hash) {
    forall c :: c in s.pending ==> c in last && last[c] == s.pending[c] && Issued(s, last[c])
  }

  ghost predicate GoneIsSafe(s: State, last: Hash) {
    forall c :: c in last && c !in s.pending ==> Safe(s, c, last[c])
  }

  ghost predicate SentIsSafe(s: State, last: Hash) {
    forall c, entry :: (c, entry) in s.sent ==> Issued(s, entry) && (c in last && last[c] == entry ==> Safe(s, c, entry))
  }

  ghost predicate OneHolder(s: State) {
    forall v, w, c :: v in s.workers && w in s.workers && c in s.rows ==>
      (Holds(s.workers[v], c) && Holds(s.workers[w], c) ==> v == w)
  }

  ghost predicate WorkIsSound(s: State) {
    forall w :: w in s.workers ==>
      var work := s.workers[w];
      && (InTransaction(work) ==> work.writable == Writable(s.rows, work.c))
      && (work.Loaded? ==> work.entry.Envelope? && Issued(s, work.entry))
      && (work.Quarantining? ==> work.entry.Corrupt?)
  }

  ghost predicate Invariant(s: State, last: Hash) {
    PendingIsLast(s, last) && GoneIsSafe(s, last) && SentIsSafe(s, last) && OneHolder(s) && WorkIsSound(s)
  }

  /** A worker may go to any stage that takes no lock it lacks and loads nothing but what is pending. */
  lemma MoveKeeps(s: State, last: Hash, w: Worker, work: Work)
    requires Invariant(s, last)
    requires InTransaction(work) ==> Holds(At(s, w), work.c) && At(s, w).writable == work.writable
    requires work.Loaded? ==> work.entry.Envelope? && Lookup(s.pending, work.c) == Some(work.entry)
    requires work.Quarantining? ==> work.entry.Corrupt?
    ensures Invariant(Move(s, w, work), last)
  {
    var t := Move(s, w, work);
    assert PendingIsLast(t, last) && OneHolder(t) && WorkIsSound(t);
    assert GoneIsSafe(t, last);
    assert SentIsSafe(t, last);
  }

  lemma SaveKeeps(s: State, last: Hash, c: Character, id: Nonce, config: Config)
    requires Invariant(s, last) && Enabled(s, Save(c, id, config))
    ensures Invariant(Step(s, Save(c, id, config)), NextLast(last, Save(c, id, config)))
  {}

  lemma SpoilKeeps(s: State, last: Hash, c: Character, text: string)
    requires Invariant(s, last) && Enabled(s, Spoil(c, text))
    ensures Invariant(Step(s, Spoil(c, text)), NextLast(last, Spoil(c, text)))
  {}

  lemma DeleteKeeps(s: State, last: Hash, c: Character)
    requires Invariant(s, last) && Enabled(s, Delete(c))
    ensures Invariant(Step(s, Delete(c)), NextLast(last, Delete(c)))
  {}

  lemma CheckKeeps(s: State, last: Hash, w: Worker, c: Character)
    requires Invariant(s, last) && Enabled(s, Check(w, c))
    ensures Invariant(Step(s, Check(w, c)), NextLast(last, Check(w, c)))
  {
    hide Invariant;
    MoveKeeps(s, last, w, Checked(c));
  }

  lemma LockKeeps(s: State, last: Hash, w: Worker)
    requires Invariant(s, last) && Enabled(s, Lock(w))
    ensures Invariant(Step(s, Lock(w)), NextLast(last, Lock(w)))
  {}

  lemma LoadKeeps(s: State, last: Hash, w: Worker)
    requires Invariant(s, last) && Enabled(s, Load(w))
    ensures Invariant(Step(s, Load(w)), NextLast(last, Load(w)))
  {
    hide Invariant;
    var work := At(s, w);
    match Lookup(s.pending, work.c)
    case None => MoveKeeps(s, last, w, Idle);
    case Some(entry) =>
      MoveKeeps(s, last, w, if entry.Corrupt? then Quarantining(work.c, entry) else Loaded(work.c, work.writable, entry));
  }

  lemma CommitKeeps(s: State, last: Hash, w: Worker)
    requires Invariant(s, last) && Enabled(s, Commit(w))
    ensures Invariant(Step(s, Commit(w)), NextLast(last, Commit(w)))
  {}

  lemma QuarantineKeeps(s: State, last: Hash, w: Worker)
    requires Invariant(s, last) && Enabled(s, Quarantine(w))
    ensures Invariant(Step(s, Quarantine(w)), NextLast(last, Quarantine(w)))
  {}

  lemma CrashKeeps(s: State, last: Hash, w: Worker)
    requires Invariant(s, last) && Enabled(s, Crash(w))
    ensures Invariant(Step(s, Crash(w)), NextLast(last, Crash(w)))
  {
    hide Invariant;
    MoveKeeps(s, last, w, Idle);
  }

  lemma DeliverKeeps(s: State, last: Hash, c: Character, entry: Entry)
    requires Invariant(s, last) && Enabled(s, Deliver(c, entry))
    ensures Invariant(Step(s, Deliver(c, entry)), NextLast(last, Deliver(c, entry)))
  {}

  lemma StepKeepsInvariant(s: State, last: Hash, a: Action)
    requires Invariant(s, last) && Enabled(s, a)
    ensures Invariant(Step(s, a), NextLast(last, a))
  {
    hide Invariant, Enabled, Step, NextLast;
    match a
    case Save(c, id, config) => SaveKeeps(s, last, c, id, config);
    case Spoil(c, text) => SpoilKeeps(s, last, c, text);
    case Delete(c) => DeleteKeeps(s, last, c);
    case Check(w, c) => CheckKeeps(s, last, w, c);
    case Lock(w) => LockKeeps(s, last, w);
    case Load(w) => LoadKeeps(s, last, w);
    case Commit(w) => CommitKeeps(s, last, w);
    case Quarantine(w) => QuarantineKeeps(s, last, w);
    case Crash(w) => CrashKeeps(s, last, w);
    case Deliver(c, entry) => DeliverKeeps(s, last, c, entry);
  }

  lemma {:induction false} RunKeepsInvariant(s: State, last: Hash, actions: seq<Action>)
    requires Invariant(s, last) && Possible(s, actions)
    ensures Invariant(After(s, actions), LastWritten(last, actions))
    decreases |actions|
  {
    if actions != [] {
      StepKeepsInvariant(s, last, actions[0]);
      RunKeepsInvariant(Step(s, actions[0]), NextLast(last, actions[0]), actions[1..]);
    }
  }

  // ---------------------------------------------------------------- results

  /** After any run, the last configuration saved is still pending or already in the database. */
  lemma NoEditIsLost(s: State, actions: seq<Action>, c: Character)
    requires Start(s) && Possible(s, actions)
    requires var last := LastWritten(s.pending, actions);
      c in last && last[c].Envelope?
    ensures var end, entry := After(s, actions), LastWritten(s.pending, actions)[c];
      Lookup(end.pending, c) == Some(entry) || (c !in end.pending && Settled(end, c, entry))
  {
    RunKeepsInvariant(s, s.pending, actions);
  }

  /** The corrupt texts put aside for a character along a run, in order. */
  ghost function PutAside(s: State, actions: seq<Action>, c: Character): seq<Entry>
    requires Possible(s, actions)
    decreases |actions|
  {
    if actions == [] then []
    else SetAside(s, actions[0], c) + PutAside(Step(s, actions[0]), actions[1..], c)
  }

  ghost function SetAside(s: State, a: Action, c: Character): seq<Entry>
    requires Enabled(s, a)
  {
    if a.Quarantine? && At(s, a.w).c == c then [At(s, a.w).entry] else []
  }

  /** What is kept aside for a character is the last text put there. */
  lemma {:induction false} LastAsideIsKept(s: State, actions: seq<Action>, c: Character)
    requires Possible(s, actions)
    ensures var aside := PutAside(s, actions, c);
      Lookup(After(s, actions).corrupt, c) == if aside == [] then Lookup(s.corrupt, c) else Some(aside[|aside| - 1])
    decreases |actions|
  {
    if actions != [] {
      LastAsideIsKept(Step(s, actions[0]), actions[1..], c);
      assert Lookup(Step(s, actions[0]).corrupt, c)
          == if SetAside(s, actions[0], c) == [] then Lookup(s.corrupt, c) else Some(SetAside(s, actions[0], c)[0]);
    }
  }

  lemma StepSends(s: State, last: Hash, a: Action, c: Character, entry: Entry)
    requires Invariant(s, last) && Enabled(s, a) && entry.Corrupt?
    requires (c, entry) in Step(s, a).sent
    ensures (c, entry) in s.sent || entry in SetAside(s, a, c)
  {}

  /** An acknowledgement of a corrupt text is sent only once the text was put aside. */
  lemma {:induction false} SentCorruptWasPutAside(s: State, last: Hash, actions: seq<Action>, c: Character, entry: Entry)
    requires Invariant(s, last) && Possible(s, actions) && entry.Corrupt?
    requires (c, entry) in After(s, actions).sent
    ensures (c, entry) in s.sent || entry in PutAside(s, actions, c)
    decreases |actions|
  {
    if actions != [] {
      var next := Step(s, actions[0]);
      StepKeepsInvariant(s, last, actions[0]);
      SentCorruptWasPutAside(next, NextLast(last, actions[0]), actions[1..], c, entry);
      if (c, entry) in next.sent { StepSends(s, last, actions[0], c, entry); }
    }
  }

  /**
   * Whatever arrives however late, an entry leaves the queue only once its configuration is in the database or, when it
   * cannot be read, its text was put aside; the text is still there exactly when it is the last put aside for that character.
   */
  lemma OnlySettledEntriesLeave(s: State, actions: seq<Action>, a: Action, c: Character)
    requires Start(s) && Possible(s, actions) && Enabled(After(s, actions), a)
    requires c in After(s, actions).pending && c !in Step(After(s, actions), a).pending
    ensures Settled(After(s, actions), c, After(s, actions).pending[c])
    ensures var entry, aside := After(s, actions).pending[c], PutAside(s, actions, c);
      entry.Corrupt? ==> entry in aside && (Lookup(After(s, actions).corrupt, c) == Some(entry) <==> aside[|aside| - 1] == entry)
  {
    RunKeepsInvariant(s, s.pending, actions);
    var entry := After(s, actions).pending[c];
    LastAsideIsKept(s, actions, c);
    if entry.Corrupt? {
      assert (c, entry) in After(s, actions).sent;
      SentCorruptWasPutAside(s, s.pending, actions, c, entry);
    }
  }

  /** The steps by which one worker settles an entry: write it or, when it cannot be read, put it aside. */
  function Settling(c: Character, w: Worker, entry: Entry): seq<Action> {
    [Check(w, c), Lock(w), Load(w), if entry.Corrupt? then Quarantine(w) else Commit(w), Deliver(c, entry)]
  }

  /** The field is empty and no other changed; a configuration is in the database, a corrupt text is kept aside. */
  ghost predicate Drained(s: State, c: Character, entry: Entry, end: State) {
    && end.pending == s.pending - {c} && Settled(end, c, entry)
    && end.corrupt == if entry.Corrupt? then s.corrupt[c := entry] else s.corrupt
  }

  /** Undisturbed, a free worker empties the field, whatever it holds, and no text is lost. */
  lemma OneSettlingDrains(s: State, actions: seq<Action>, c: Character, w: Worker)
    requires Start(s) && Possible(s, actions)
    requires var end := After(s, actions); At(end, w).Idle? && Free(end, c) && c in end.pending
    ensures var end, last := After(s, actions), LastWritten(s.pending, actions);
      var entry := end.pending[c];
      && c in last && last[c] == entry
      && Possible(end, Settling(c, w, entry)) && Drained(end, c, entry, After(end, Settling(c, w, entry)))
  {
    RunKeepsInvariant(s, s.pending, actions);
    var end := After(s, actions);
    Drain(end, c, w, end.pending[c]);
  }

  lemma Drain(s: State, c: Character, w: Worker, entry: Entry)
    requires At(s, w).Idle? && Free(s, c) && Lookup(s.pending, c) == Some(entry)
    ensures Possible(s, Settling(c, w, entry)) && Drained(s, c, entry, After(s, Settling(c, w, entry)))
  {
    var s1 := Step(s, Check(w, c));
    assert Free(s1, c);
    var s2 := Step(s1, Lock(w));
    DrainLocked(s2, c, w, entry);
    hide Step, Enabled, Settled;
    var finish := if entry.Corrupt? then Quarantine(w) else Commit(w);
    Unroll(s1, Lock(w), [Load(w), finish, Deliver(c, entry)]);
    Unroll(s, Check(w, c), [Lock(w), Load(w), finish, Deliver(c, entry)]);
  }

  lemma DrainLocked(s: State, c: Character, w: Worker, entry: Entry)
    requires At(s, w) == Locked(c, Writable(s.rows, c)) && Lookup(s.pending, c) == Some(entry)
    ensures var settling := [Load(w), if entry.Corrupt? then Quarantine(w) else Commit(w), Deliver(c, entry)];
      Possible(s, settling) && Drained(s, c, entry, After(s, settling))
  {
    var finish := if entry.Corrupt? then Quarantine(w) else Commit(w);
    var s1 := Step(s, Load(w));
    assert s1 == Move(s, w, if entry.Corrupt? then Quarantining(c, entry) else Loaded(c, Writable(s.rows, c), entry));
    var s2 := Step(s1, finish);
    assert s2.pending == s.pending && (c, entry) in s2.sent;
    var s3 := Step(s2, Deliver(c, entry));
    assert Drained(s, c, entry, s3);
    hide Step, Enabled, Settled;
    Unroll(s2, Deliver(c, entry), []);
    Unroll(s1, finish, [Deliver(c, entry)]);
    Unroll(s, Load(w), [finish, Deliver(c, entry)]);
  }

  lemma Unroll(s: State, a: Action, rest: seq<Action>)
    requires Enabled(s, a) && Possible(Step(s, a), rest)
    ensures Possible(s, [a] + rest) && After(s, [a] + rest) == After(Step(s, a), rest)
  {
    assert ([a] + rest)[1..] == rest;
  }
}
