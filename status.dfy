/*
  status.js: per-channel readiness statuses that lapse after twelve hours.

  A channel's statuses live in one file, `statuses/<channel>.json`, mapping
  user ids to entries; `activeTimers` holds one pending expiry per
  `channel_user` key.  Files are a map from channel id to record; a timer is
  its absolute deadline in milliseconds, and the moment it fires is the
  explicit step `Expire`.  `Date.now()` is the parameter `now`.
*/
module Status {
  import opened Wrappers
  import opened Chat
  import FileStore
  import Inventory

  /** `STATUS_DURATION`: twelve hours in milliseconds. */
  const STATUS_DURATION: int := 12 * 60 * 60 * 1000

  datatype State = Ready | NotReady

  /** `{ status, timestamp, username }`; `username` is null until `check` fills it. */
  datatype Entry = Entry(status: State, timestamp: int, username: Option<string>)

  /** The contents of one channel's status file. */
  type Statuses = map<Id, Entry>

  /** The `${channelId}_${userId}` key of `activeTimers`. */
  datatype TimerKey = TimerKey(channel: Id, user: Id)

  /** The channel a status command acts on: `message.channel.id` as it is. */
  function StatusScope(ch: Channel): (r: Id)
    ensures r == ch.id
    ensures ch.Thread? ==> (r == ch.parentId <==> ch.id == ch.parentId)
  {
    ch.id
  }

  /**
    Statuses are kept per thread while the inventory is kept per parent
    channel: a thread never shares its status file with its parent.
   */
  lemma ThreadHasOwnStatuses(thread: Id, parent: Id)
    requires thread != parent
    ensures StatusScope(Thread(thread, parent)) != StatusScope(TextChannel(parent))
    ensures Inventory.Scope(Thread(thread, parent)) == Inventory.Scope(TextChannel(parent))
    ensures StatusScope(Thread(thread, parent)) != Inventory.Scope(Thread(thread, parent))
  {
  }

  // ---------------------------------------------------------------- the files

  /** `Object.values(statuses).some(s => s.status === 'ready')` */
  predicate HasReady(m: Statuses)
    ensures HasReady(m) ==> m != map[]
  {
    exists u | u in m :: m[u].status == Ready
  }

  predicate AllReady(m: Statuses)
  {
    forall u | u in m :: m[u].status == Ready
  }

  /** For records of ready entries only, having one ready is being non-empty. */
  lemma AllReadyHasReady(m: Statuses)
    requires AllReady(m)
    ensures HasReady(m) <==> m != map[]
  {
    if m != map[] {
      var u :| u in m;
      assert m[u].status == Ready;
    }
  }

  /**
    `saveChannelStatuses`: a record with a ready entry replaces the file; any
    other record removes it.  No other channel's file changes.
   */
  function SaveStatuses(files: map<Id, Statuses>, c: Id, m: Statuses): (r: map<Id, Statuses>)
    ensures c in r <==> HasReady(m)
    ensures HasReady(m) ==> FileStore.Load(r, c) == m
    ensures !HasReady(m) ==> FileStore.Load(r, c) == map[]
    ensures r - {c} == files - {c}
  {
    if HasReady(m) then files[c := m] else files - {c}
  }

  /** For records of ready entries, this is the `saveData` convention of the inventory files. */
  lemma SaveStatusesIsSave(files: map<Id, Statuses>, c: Id, m: Statuses)
    requires AllReady(m)
    ensures SaveStatuses(files, c, m) == FileStore.Save(files, c, m)
  {
    AllReadyHasReady(m);
  }

  /** What every file on disk holds: at least one entry, every entry ready. */
  predicate Stored(files: map<Id, Statuses>)
  {
    forall c | c in files :: files[c] != map[] && AllReady(files[c])
  }

  lemma SaveKeepsStored(files: map<Id, Statuses>, c: Id, m: Statuses)
    requires Stored(files) && AllReady(m)
    ensures Stored(SaveStatuses(files, c, m))
  {
    AllReadyHasReady(m);
  }

  /** Saving what was just loaded changes nothing. */
  lemma SaveLoadedStatuses(files: map<Id, Statuses>, c: Id)
    requires Stored(files)
    ensures SaveStatuses(files, c, FileStore.Load(files, c)) == files
  {
    if c in files {
      AllReadyHasReady(files[c]);
    }
  }

  /** Only the last of two saves of the same channel matters. */
  lemma SaveStatusesTwice(files: map<Id, Statuses>, c: Id, a: Statuses, b: Statuses)
    ensures SaveStatuses(SaveStatuses(files, c, a), c, b) == SaveStatuses(files, c, b)
  {
  }

  /** `getStatus`: the stored status, or `notready` when the user has no entry. */
  function GetStatus(files: map<Id, Statuses>, c: Id, u: Id): (r: State)
    ensures u !in FileStore.Load(files, c) ==> r == NotReady
    ensures r == Ready <==> u in FileStore.Load(files, c) && FileStore.Load(files, c)[u].status == Ready
  {
    var m := FileStore.Load(files, c);
    if u in m then m[u].status else NotReady
  }

  /**
    Saving a channel's record in which only `user`'s entry may differ from
    the file leaves every other user's status, in every channel, as it was.
   */
  lemma OtherStatusKept(files: map<Id, Statuses>, c: Id, user: Id, m: Statuses, d: Id, v: Id)
    requires Stored(files) && AllReady(m)
    requires forall w | w != user :: (w in m <==> w in FileStore.Load(files, c))
    requires forall w | w != user && w in m :: m[w] == FileStore.Load(files, c)[w]
    requires d != c || v != user
    ensures GetStatus(SaveStatuses(files, c, m), d, v) == GetStatus(files, d, v)
  {
    var r := SaveStatuses(files, c, m);
    if d != c {
      FileStore.LoadElsewhere(files, r, c, d);
    } else {
      AllReadyHasReady(m);
    }
  }

  // ---------------------------------------------------------------- time

  /** `STATUS_DURATION - (Date.now() - statusData.timestamp)` */
  function Remaining(e: Entry, now: int): (r: int)
    ensures r > 0 <==> now < e.timestamp + STATUS_DURATION
    ensures now == e.timestamp ==> r == STATUS_DURATION
    ensures now + r == e.timestamp + STATUS_DURATION
  {
    STATUS_DURATION - (now - e.timestamp)
  }

  /** A ready entry whose twelve hours are over when the bot starts again. */
  predicate Expired(e: Entry, now: int)
  {
    e.status == Ready && Remaining(e, now) <= 0
  }

  /** What `restoreTimers` keeps of a record: every entry that has not expired. */
  function Survivors(m: Statuses, now: int): (r: Statuses)
    ensures r.Keys <= m.Keys
    ensures forall u | u in r :: r[u] == m[u] && !Expired(m[u], now)
    ensures forall u | u in m && !Expired(m[u], now) :: u in r
  {
    map u | u in m && !Expired(m[u], now) :: m[u]
  }

  /**
    Restoring later keeps no more than restoring earlier, and restoring at
    `t1` and then at `t2` keeps what restoring once at `t2` keeps.
   */
  lemma SurvivorsLater(m: Statuses, t1: int, t2: int)
    requires t1 <= t2
    ensures Survivors(Survivors(m, t1), t2) == Survivors(m, t2)
  {
    var a, b := Survivors(Survivors(m, t1), t2), Survivors(m, t2);
    forall u | u in b ensures u in a {
      assert !Expired(m[u], t1);
    }
  }

  /** A record of ready entries keeps only ready entries whose time is not up. */
  lemma SurvivorsLive(m: Statuses, now: int)
    requires AllReady(m)
    ensures AllReady(Survivors(m, now))
    ensures forall u | u in Survivors(m, now) :: Remaining(m[u], now) > 0
  {
  }

  /**
    After a restart, a status set thirteen hours ago is dropped at once and
    one set an hour ago is kept, with eleven hours left to run.
   */
  lemma RestartScenario(now: int)
    ensures var hour := 60 * 60 * 1000;
      var m := map["old" := Entry(Ready, now - 13 * hour, None), "recent" := Entry(Ready, now - hour, None)];
      Survivors(m, now) == map["recent" := m["recent"]] && Remaining(m["recent"], now) == 11 * hour
  {
    var hour := 60 * 60 * 1000;
    var m := map["old" := Entry(Ready, now - 13 * hour, None), "recent" := Entry(Ready, now - hour, None)];
    assert Expired(m["old"], now);
    assert !Expired(m["recent"], now);
    assert Survivors(m, now).Keys == {"recent"};
  }

  // ---------------------------------------------------------------- check

  /**
    What `checkReadyStatuses` leaves in a record: a ready entry of a member
    carries the member's display name, a ready entry of a user the guild
    cannot find is gone, any other entry stays as it is.
   */
  function Checked(m: Statuses, members: map<Id, string>): (r: Statuses)
    ensures r.Keys == set u | u in m && (m[u].status != Ready || u in members)
    ensures forall u | u in r && m[u].status == Ready :: r[u] == m[u].(username := Some(members[u]))
    ensures forall u | u in r && m[u].status != Ready :: r[u] == m[u]
  {
    map u | u in m && (m[u].status != Ready || u in members) ::
      if m[u].status == Ready then m[u].(username := Some(members[u])) else m[u]
  }

  /** The check drops exactly the ready entries of users who are not members. */
  lemma CheckedKeepsMembers(m: Statuses, members: map<Id, string>)
    requires AllReady(m)
    ensures AllReady(Checked(m, members))
    ensures Checked(m, members).Keys == m.Keys * members.Keys
  {
  }

  /** Record `m` while the check runs: the entries in `todo` are not visited yet, the others are checked. */
  function Checking(m: Statuses, members: map<Id, string>, todo: set<Id>): (r: Statuses)
    ensures todo >= m.Keys ==> r == m
    ensures todo == {} ==> r == Checked(m, members)
  {
    map u | u in m && (u in todo || m[u].status != Ready || u in members) ::
      if u in todo || m[u].status != Ready then m[u] else m[u].(username := Some(members[u]))
  }

  /** Checking one more entry: a ready member's entry is named, a ready non-member's is dropped, any other is kept. */
  lemma CheckingStep(m: Statuses, members: map<Id, string>, todo: set<Id>, u: Id)
    requires u in todo && u in m
    ensures Checking(m, members, todo - {u}) ==
      if m[u].status != Ready then Checking(m, members, todo)
      else if u in members then Checking(m, members, todo)[u := m[u].(username := Some(members[u]))]
      else Checking(m, members, todo) - {u}
  {
  }

  /**
    The names listed while the check runs: `order` holds each ready member
    of `m` outside `todo` once, and `names` their display names.
   */
  ghost predicate Listed(m: Statuses, members: map<Id, string>, todo: set<Id>, names: seq<string>, order: seq<Id>)
  {
    (forall u :: u in order <==> u in m && u !in todo && m[u].status == Ready && u in members) &&
    (forall i, j | 0 <= i < j < |order| :: order[i] != order[j]) &&
    |names| == |order| &&
    (forall i | 0 <= i < |order| :: order[i] in members && names[i] == members[order[i]])
  }

  /** Listing a ready member when it is visited keeps the list right; passing over anyone else does too. */
  lemma ListedStep(m: Statuses, members: map<Id, string>, todo: set<Id>, names: seq<string>, order: seq<Id>, u: Id)
    requires u in todo && u in m && Listed(m, members, todo, names, order)
    ensures m[u].status == Ready && u in members ==>
      Listed(m, members, todo - {u}, names + [members[u]], order + [u])
    ensures !(m[u].status == Ready && u in members) ==> Listed(m, members, todo - {u}, names, order)
  {
  }

  /**
    The loop of `checkReadyStatuses` over one record: a ready entry of a
    member gets the member's display name and the name is listed; a ready
    entry of anyone else is deleted; other entries are passed over.
   */
  method VisitStatuses(m: Statuses, members: map<Id, string>) returns (statuses: Statuses, names: seq<string>, ghost order: seq<Id>)
    ensures statuses == Checked(m, members)
    ensures forall u :: u in order <==> u in m && m[u].status == Ready && u in members
    ensures forall i, j | 0 <= i < j < |order| :: order[i] != order[j]
    ensures |names| == |order|
    ensures forall i | 0 <= i < |order| :: order[i] in members && names[i] == members[order[i]]
  {
    statuses := m;
    var todo := m.Keys;
    names, order := [], [];
    while todo != {}
      invariant todo <= m.Keys
      invariant statuses == Checking(m, members, todo)
      invariant Listed(m, members, todo, names, order)
      decreases todo
    {
      var u :| u in todo;
      var entry := statuses[u];
      assert entry == m[u];
      CheckingStep(m, members, todo, u);
      ListedStep(m, members, todo, names, order, u);
      if entry.status == Ready {
        if u in members {
          names := names + [members[u]];
          order := order + [u];
          statuses := statuses[u := entry.(username := Some(members[u]))];
        } else {
          statuses := statuses - {u};
        }
      }
      todo := todo - {u};
    }
  }

  // ---------------------------------------------------------------- restart

  /**
    Every stored status of a channel outside `pending` has its expiry
    pending, due twelve hours after the status was set.
   */
  predicate ArmedOutside(files: map<Id, Statuses>, timers: map<TimerKey, int>, pending: set<Id>)
  {
    forall c, u | c in files && c !in pending && u in files[c] ::
      TimerKey(c, u) in timers && timers[TimerKey(c, u)] == files[c][u].timestamp + STATUS_DURATION
  }

  /** The channels outside `pending` are restored at `now`, the others read as they did in `f0`. */
  ghost predicate RestoredOutside(f0: map<Id, Statuses>, files: map<Id, Statuses>, pending: set<Id>, now: int)
  {
    forall c ::
      FileStore.Load(files, c) == if c in pending then FileStore.Load(f0, c) else Survivors(FileStore.Load(f0, c), now)
  }

  /** Restoring one more pending channel `c` keeps both halves of the restart's invariant. */
  lemma RestoreStep(f0: map<Id, Statuses>, before: map<Id, Statuses>, after: map<Id, Statuses>,
                    timersBefore: map<TimerKey, int>, timersAfter: map<TimerKey, int>,
                    pending: set<Id>, c: Id, now: int)
    requires c in pending && Stored(after)
    requires RestoredOutside(f0, before, pending, now) && ArmedOutside(before, timersBefore, pending)
    requires FileStore.Load(after, c) == Survivors(FileStore.Load(before, c), now)
    requires forall d | d != c :: FileStore.Load(after, d) == FileStore.Load(before, d)
    requires forall u | u in Survivors(FileStore.Load(before, c), now) ::
      TimerKey(c, u) in timersAfter && timersAfter[TimerKey(c, u)] == FileStore.Load(before, c)[u].timestamp + STATUS_DURATION
    requires forall k | k in timersBefore && k.channel != c :: k in timersAfter && timersAfter[k] == timersBefore[k]
    ensures RestoredOutside(f0, after, pending - {c}, now)
    ensures ArmedOutside(after, timersAfter, pending - {c})
  {
    forall d | true
      ensures FileStore.Load(after, d) == if d in pending - {c} then FileStore.Load(f0, d) else Survivors(FileStore.Load(f0, d), now)
    {
      if d != c {
        assert FileStore.Load(after, d) == FileStore.Load(before, d);
      }
    }
    forall d, u | d in after && d !in pending - {c} && u in after[d]
      ensures TimerKey(d, u) in timersAfter && timersAfter[TimerKey(d, u)] == after[d][u].timestamp + STATUS_DURATION
    {
      if d != c {
        assert FileStore.Load(after, d) == FileStore.Load(before, d);
        assert d in before && after[d] == before[d];
        assert TimerKey(d, u) in timersBefore;
      } else {
        assert u in Survivors(FileStore.Load(before, c), now);
      }
    }
  }

  /**
    Restoring channel `c` adds timers only for statuses that are still
    stored: this holds for every channel outside `pending` before the step,
    and after it for `c` too.
   */
  lemma RestoreStepAdded(before: map<Id, Statuses>, after: map<Id, Statuses>, t0: map<TimerKey, int>,
                         timersBefore: map<TimerKey, int>, timersAfter: map<TimerKey, int>,
                         pending: set<Id>, c: Id, now: int)
    requires c in pending
    requires forall k | k in timersBefore && k !in t0 :: k.channel !in pending && k.user in FileStore.Load(before, k.channel)
    requires FileStore.Load(after, c) == Survivors(FileStore.Load(before, c), now)
    requires forall d | d != c :: FileStore.Load(after, d) == FileStore.Load(before, d)
    requires RestoredTimers(FileStore.Load(before, c), timersBefore, timersAfter, c, now)
    ensures forall k | k in timersAfter && k !in t0 :: k.channel !in pending - {c} && k.user in FileStore.Load(after, k.channel)
  {
    forall k | k in timersAfter && k !in t0
      ensures k.channel !in pending - {c} && k.user in FileStore.Load(after, k.channel)
    {
      if k in timersBefore {
        assert k.channel != c;
      }
    }
  }

  /**
    How `restoreTimers` leaves the timers of channel `c`, whose record was
    `m`: every entry that survives has its timer, due when its twelve hours
    end; no other timer is added, the timers of expired entries are left as
    they were, and so are those of every other channel.
   */
  predicate RestoredTimers(m: Statuses, t0: map<TimerKey, int>, timers: map<TimerKey, int>, c: Id, now: int)
  {
    (forall u | u in Survivors(m, now) ::
      TimerKey(c, u) in timers && timers[TimerKey(c, u)] == m[u].timestamp + STATUS_DURATION) &&
    (forall k | k in timers :: k in t0 || (k.channel == c && k.user in Survivors(m, now))) &&
    (forall u | u in m && u !in Survivors(m, now) ::
      TimerKey(c, u) in timers ==> TimerKey(c, u) in t0 && timers[TimerKey(c, u)] == t0[TimerKey(c, u)]) &&
    (forall k | k in t0 && k.channel != c :: k in timers && timers[k] == t0[k])
  }

  /**
    Record `m` while the restore loop runs: the entries in `todo` are not
    visited yet, and of the others only those that have not expired are left.
   */
  function Restoring(m: Statuses, todo: set<Id>, now: int): (r: Statuses)
    ensures todo >= m.Keys ==> r == m
    ensures todo == {} ==> r == Survivors(m, now)
  {
    map u | u in m && (u in todo || !Expired(m[u], now)) :: m[u]
  }

  /** Visiting one more entry drops it when it has expired and keeps it otherwise. */
  lemma RestoringStep(m: Statuses, todo: set<Id>, now: int, u: Id)
    requires u in todo && u in m
    ensures Restoring(m, todo - {u}, now) ==
      if Expired(m[u], now) then Restoring(m, todo, now) - {u} else Restoring(m, todo, now)
  {
  }

  /**
    The timers while the restore loop runs over record `m` of channel `c`:
    the live entries outside `todo` are re-armed at their original deadline,
    and every other timer is as it was in `t0`.
   */
  predicate TimersRestoring(m: Statuses, t0: map<TimerKey, int>, timers: map<TimerKey, int>, c: Id, todo: set<Id>, now: int)
  {
    (forall u | u in m && u !in todo && !Expired(m[u], now) ::
      TimerKey(c, u) in timers && timers[TimerKey(c, u)] == m[u].timestamp + STATUS_DURATION) &&
    (forall k | k in timers :: k in t0 || (k.channel == c && k.user in m && k.user !in todo && !Expired(m[k.user], now))) &&
    (forall k | k in timers && !(k.channel == c && k.user in m && k.user !in todo && !Expired(m[k.user], now)) ::
      timers[k] == t0[k]) &&
    t0.Keys <= timers.Keys
  }

  /** Visiting one more entry: an expired one leaves the timers alone, a live one is re-armed. */
  lemma TimersRestoringStep(m: Statuses, t0: map<TimerKey, int>, timers: map<TimerKey, int>, c: Id, todo: set<Id>, now: int, u: Id)
    requires u in todo && u in m && TimersRestoring(m, t0, timers, c, todo, now)
    ensures Expired(m[u], now) ==> TimersRestoring(m, t0, timers, c, todo - {u}, now)
    ensures !Expired(m[u], now) ==>
      TimersRestoring(m, t0, timers[TimerKey(c, u) := m[u].timestamp + STATUS_DURATION], c, todo - {u}, now)
  {
  }

  lemma TimersRestored(m: Statuses, t0: map<TimerKey, int>, timers: map<TimerKey, int>, c: Id, now: int)
    requires TimersRestoring(m, t0, timers, c, {}, now)
    ensures RestoredTimers(m, t0, timers, c, now)
  {
  }

  /** The loop of `restoreTimers` over the entries of channel `c`'s file. */
  method RestoreRecord(f0: map<Id, Statuses>, t0: map<TimerKey, int>, c: Id, now: int)
    returns (files: map<Id, Statuses>, timers: map<TimerKey, int>)
    requires Stored(f0)
    ensures Stored(files)
    ensures files == SaveStatuses(f0, c, Survivors(FileStore.Load(f0, c), now))
    ensures RestoredTimers(FileStore.Load(f0, c), t0, timers, c, now)
    ensures FileStore.Load(files, c) == Survivors(FileStore.Load(f0, c), now)
    ensures forall d | d != c :: FileStore.Load(files, d) == FileStore.Load(f0, d)
  {
    files, timers := f0, t0;
    var statuses := FileStore.Load(files, c);
    ghost var m0 := statuses;
    assert AllReady(m0);
    SaveLoadedStatuses(files, c);
    var todo := statuses.Keys;
    while todo != {}
      invariant todo <= m0.Keys
      invariant statuses == Restoring(m0, todo, now)
      invariant files == SaveStatuses(f0, c, statuses)
      invariant TimersRestoring(m0, t0, timers, c, todo, now)
      decreases todo
    {
      var u :| u in todo;
      var entry := statuses[u];
      assert entry == m0[u] && entry.status == Ready;
      RestoringStep(m0, todo, now, u);
      TimersRestoringStep(m0, t0, timers, c, todo, now, u);
      if entry.status == Ready {
        var remaining := STATUS_DURATION - (now - entry.timestamp);
        if remaining > 0 {
          timers := timers[TimerKey(c, u) := now + remaining];
        } else {
          statuses := statuses - {u};
          SaveStatusesTwice(f0, c, files[c], statuses);
          files := SaveStatuses(files, c, statuses);
        }
      }
      todo := todo - {u};
    }
    TimersRestored(m0, t0, timers, c, now);
    SurvivorsLive(m0, now);
    AllReadyHasReady(statuses);
    SaveKeepsStored(f0, c, statuses);
    forall d | d != c ensures FileStore.Load(files, d) == FileStore.Load(f0, d) {
      FileStore.LoadElsewhere(f0, files, c, d);
    }
  }

  /** Setting a status keeps every stored status armed: a new ready entry comes with its own timer. */
  lemma ArmedAfterSet(f0: map<Id, Statuses>, t0: map<TimerKey, int>, f1: map<Id, Statuses>, t1: map<TimerKey, int>,
                      c: Id, user: Id, status: State, now: int)
    requires ArmedOutside(f0, t0, {})
    requires status == Ready ==>
      t1 == t0[TimerKey(c, user) := now + STATUS_DURATION] &&
      f1 == f0[c := FileStore.Load(f0, c)[user := Entry(Ready, now, None)]]
    requires status == NotReady ==>
      t1 == t0 - {TimerKey(c, user)} &&
      f1 == (if user in FileStore.Load(f0, c) then SaveStatuses(f0, c, FileStore.Load(f0, c) - {user}) else f0)
    ensures ArmedOutside(f1, t1, {})
  {
    forall d, v | d in f1 && v in f1[d]
      ensures TimerKey(d, v) in t1 && t1[TimerKey(d, v)] == f1[d][v].timestamp + STATUS_DURATION
    {
      if d != c || v != user {
        assert d in f0 && v in f0[d] && f1[d][v] == f0[d][v];
      }
    }
  }

  // ---------------------------------------------------------------- the tracker

  /** The status files on disk and `activeTimers`. */
  class StatusTracker {
    var files: map<Id, Statuses>
    var timers: map<TimerKey, int>

    /** Every file written by `saveChannelStatuses` holds ready entries only, and at least one. */
    ghost predicate Valid()
      reads this
    {
      Stored(files)
    }

    /** Every stored status has its expiry pending, due twelve hours after it was set. */
    ghost predicate Armed()
      reads this
    {
      ArmedOutside(files, timers, {})
    }

    /** The process starts with the files of earlier runs and no timer. */
    constructor (saved: map<Id, Statuses>)
      requires Stored(saved)
      ensures Valid()
      ensures files == saved && timers == map[]
    {
      files, timers := saved, map[];
    }

    /**
      `setStatus`: the key's pending expiry is cancelled; `ready` stores a
      fresh entry stamped `now` and arms one expiry twelve hours on,
      `notready` removes the entry (and leaves the files alone when there was
      none).
     */
    method SetStatus(user: Id, c: Id, status: State, now: int)
      requires Valid()
      modifies this
      ensures Valid()
      ensures status == Ready ==>
        timers == old(timers)[TimerKey(c, user) := now + STATUS_DURATION] &&
        files == old(files)[c := FileStore.Load(old(files), c)[user := Entry(Ready, now, None)]]
      ensures status == NotReady ==>
        timers == old(timers) - {TimerKey(c, user)} &&
        files == (if user in FileStore.Load(old(files), c)
                  then SaveStatuses(old(files), c, FileStore.Load(old(files), c) - {user})
                  else old(files))
      ensures GetStatus(files, c, user) == status
      ensures forall d, v | d != c || v != user :: GetStatus(files, d, v) == GetStatus(old(files), d, v)
      ensures old(Armed()) ==> Armed()
    {
      ghost var f0, t0 := files, timers;
      var statuses := FileStore.Load(files, c);
      var key := TimerKey(c, user);
      if key in timers {
        timers := timers - {key};
      }
      if status == NotReady {
        if user in statuses {
          statuses := statuses - {user};
          SaveKeepsStored(files, c, statuses);
          files := SaveStatuses(files, c, statuses);
        }
      } else {
        statuses := statuses[user := Entry(Ready, now, None)];
        timers := timers[key := now + STATUS_DURATION];
        assert statuses[user].status == Ready;
        SaveKeepsStored(files, c, statuses);
        files := SaveStatuses(files, c, statuses);
      }
      forall d, v | d != c || v != user
        ensures GetStatus(files, d, v) == GetStatus(old(files), d, v)
      {
        OtherStatusKept(old(files), c, user, statuses, d, v);
      }
      if ArmedOutside(f0, t0, {}) {
        ArmedAfterSet(f0, t0, files, timers, c, user, status, now);
      }
    }

    /**
      A pending expiry fires: the callback reloads the channel's statuses,
      deletes the user's entry if it is still ready, and forgets the timer.
      While every status is armed, no status is dropped before its twelve
      hours are over.
     */
    method Expire(key: TimerKey, now: int)
      requires Valid()
      requires key in timers && timers[key] <= now
      modifies this
      ensures Valid()
      ensures timers == old(timers) - {key}
      ensures files ==
        if key.user in FileStore.Load(old(files), key.channel)
        then SaveStatuses(old(files), key.channel, FileStore.Load(old(files), key.channel) - {key.user})
        else old(files)
      ensures GetStatus(files, key.channel, key.user) == NotReady
      ensures forall d, v | d != key.channel || v != key.user :: GetStatus(files, d, v) == GetStatus(old(files), d, v)
      ensures old(Armed()) ==> Armed()
      ensures old(Armed()) && key.user in FileStore.Load(old(files), key.channel) ==>
        FileStore.Load(old(files), key.channel)[key.user].timestamp + STATUS_DURATION <= now
    {
      var current := FileStore.Load(files, key.channel);
      if key.user in current && current[key.user].status == Ready {
        current := current - {key.user};
        SaveKeepsStored(files, key.channel, current);
        files := SaveStatuses(files, key.channel, current);
      }
      timers := timers - {key};
      forall d, v | d != key.channel || v != key.user
        ensures GetStatus(files, d, v) == GetStatus(old(files), d, v)
      {
        OtherStatusKept(old(files), key.channel, key.user, current, d, v);
      }
    }

    /**
      `checkReadyStatuses`: the display names of the ready users the guild
      still has, one per such user in the order the entries are visited
      (`order`); the entries of users it cannot find are deleted and the
      record is saved.
     */
    method CheckReadyStatuses(c: Id, members: map<Id, string>) returns (names: seq<string>, ghost order: seq<Id>)
      requires Valid()
      modifies this
      ensures Valid() && timers == old(timers)
      ensures files == SaveStatuses(old(files), c, Checked(FileStore.Load(old(files), c), members))
      ensures forall u :: u in order <==> u in FileStore.Load(old(files), c) && u in members
      ensures forall i, j | 0 <= i < j < |order| :: order[i] != order[j]
      ensures |names| == |order|
      ensures forall i | 0 <= i < |order| :: order[i] in members && names[i] == members[order[i]]
      ensures old(Armed()) ==> Armed()
    {
      var statuses := FileStore.Load(files, c);
      ghost var m0 := statuses;
      statuses, names, order := VisitStatuses(statuses, members);
      CheckedKeepsMembers(m0, members);
      SaveKeepsStored(files, c, statuses);
      files := SaveStatuses(files, c, statuses);
    }

    /**
      `restoreTimers` on one channel's file: every ready entry whose twelve
      hours are over is deleted (and the file saved), every other one gets a
      timer for what is left of its time, which is due exactly when the
      original one was.  Expired entries get no timer, and timers of other
      channels stay as they are.
     */
    method RestoreChannel(c: Id, now: int)
      requires Valid()
      modifies this
      ensures Valid()
      ensures files == SaveStatuses(old(files), c, Survivors(FileStore.Load(old(files), c), now))
      ensures RestoredTimers(FileStore.Load(old(files), c), old(timers), timers, c, now)
      ensures FileStore.Load(files, c) == Survivors(FileStore.Load(old(files), c), now)
      ensures forall d | d != c :: FileStore.Load(files, d) == FileStore.Load(old(files), d)
    {
      files, timers := RestoreRecord(files, timers, c, now);
    }

    /**
      `restoreTimers`: after a restart every status file is restored.  What
      is left is exactly the statuses whose time is not up, each with its
      expiry pending at its original deadline.
     */
    method RestoreTimers(now: int)
      requires Valid()
      modifies this
      ensures Valid() && Armed()
      ensures forall c :: FileStore.Load(files, c) == Survivors(FileStore.Load(old(files), c), now)
      ensures forall c, u | c in files && u in files[c] :: Remaining(files[c][u], now) > 0
      ensures forall k | k in timers && k !in old(timers) :: k.user in FileStore.Load(files, k.channel)
      ensures old(timers) == map[] ==> forall k | k in timers :: k.user in FileStore.Load(files, k.channel)
    {
      ghost var f0, t0 := files, timers;
      var todo := files.Keys;
      while todo != {}
        invariant Valid()
        invariant todo <= f0.Keys
        invariant RestoredOutside(f0, files, todo, now)
        invariant ArmedOutside(files, timers, todo)
        invariant forall k | k in timers && k !in t0 :: k.channel !in todo && k.user in FileStore.Load(files, k.channel)
        decreases todo
      {
        var c :| c in todo;
        ghost var before, timersBefore := files, timers;
        RestoreChannel(c, now);
        RestoreStep(f0, before, files, timersBefore, timers, todo, c, now);
        RestoreStepAdded(before, files, t0, timersBefore, timers, todo, c, now);
        todo := todo - {c};
      }
      forall c, u | c in files && u in files[c] ensures Remaining(files[c][u], now) > 0 {
        SurvivorsLive(FileStore.Load(f0, c), now);
      }
    }
  }
}
