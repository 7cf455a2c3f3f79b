/** The snapshot store as the program runs it: maps changed in place by methods, each proved
    equal to the function it carries out. */
module SnapshotStores {
  import opened Options
  import opened Text
  import opened Storage
  import opened Snapshots
  import opened Histories
  import opened Stores
  import opened SnapshotCaches
  import opened CacheFiles
  import P = Preferences

  class SnapshotStore {
    var entries: map<string, Snapshot>
    var history: map<string, seq<Snapshot>>
    var loadFailed: bool
    var migrationRevision: nat
    var migrationDirty: bool
    var migrationFailed: bool
    ghost var lastWritten: nat
    const directory: Directory<CacheDocument>
    const path: string

    function Contents(): Store<Snapshot>
      reads this
    {
      Store(entries, history)
    }

    ghost predicate Valid()
      reads this, directory
    {
      path != "" && (path in directory.files ==> directory.files[path].Whole?)
    }

    /** The store between two saves or loads. */
    ghost function View(): Machine
      requires Valid()
      reads this, directory
    {
      Machine(Cache(Contents(), loadFailed, migrationRevision, migrationDirty, migrationFailed),
              if path in directory.files then Some(directory.files[path].value) else None, Idle, lastWritten)
    }

    constructor (directory: Directory<CacheDocument>, path: string)
      requires path != "" && (path in directory.files ==> directory.files[path].Whole?)
      ensures Valid() && this.directory == directory && this.path == path
      ensures Contents() == Store(map[], map[]) && Inv(View())
    {
      entries, history := map[], map[];
      loadFailed, migrationDirty, migrationFailed := false, false, false;
      migrationRevision, lastWritten := 0, 0;
      this.directory, this.path := directory, path;
    }

    method Put(x: Snapshot)
      modifies this`entries, this`history
      ensures Contents() == Stores.Put(old(Contents()), x.accountId, x)
    {
      var id := x.accountId;
      if id == "" { return; }
      entries := entries[id := x];
      history := history[id := [x] + if id in history then history[id] else []];
      if |history[id]| > HISTORY_LIMIT {
        history := history[id := history[id][..HISTORY_LIMIT]];
      }
    }

    method Delete(id: string)
      modifies this`entries, this`history
      ensures Contents() == Stores.Delete(old(Contents()), id)
    {
      if id == "" { return; }
      entries, history := entries - {id}, history - {id};
    }

    method RemoveActive(id: string)
      modifies this`entries
      ensures Contents() == Stores.RemoveActive(old(Contents()), id)
    {
      if id == "" { return; }
      entries := entries - {id};
    }

    method ReapplyActive(mutate: Snapshot -> Snapshot)
      modifies this`entries
      ensures Contents() == Reapply(old(Contents()), mutate)
    {
      var rest := entries.Keys;
      while rest != {}
        invariant rest <= old(entries).Keys == entries.Keys
        invariant forall id | id in entries :: entries[id] == if id in rest then old(entries)[id]
                  else mutate(old(entries)[id])
        decreases |rest|
      {
        var id :| id in rest;
        rest := rest - {id};
        entries := entries[id := mutate(entries[id])];
      }
      assert entries == map id | id in old(entries) :: mutate(old(entries)[id]);
    }

    method Prune(keep: set<string>)
      modifies this`entries
      ensures Contents() == Stores.Prune(old(Contents()), keep)
    {
      var rest := entries.Keys;
      while rest != {}
        invariant rest <= old(entries).Keys
        invariant entries == old(entries) - ((old(entries).Keys - rest) - keep)
        decreases |rest|
      {
        var id :| id in rest;
        ghost var gone := (old(entries).Keys - rest) - keep;
        rest := rest - {id};
        if id !in keep {
          entries := entries - {id};
          assert (old(entries).Keys - rest) - keep == gone + {id};
        } else {
          assert (old(entries).Keys - rest) - keep == gone;
        }
      }
      assert old(entries).Keys - {} == old(entries).Keys;
    }

    method RenameAccount(id: string, name: string)
      modifies this`entries, this`history
      ensures Contents() == SnapshotCaches.Rename(old(Contents()), id, name)
    {
      if id == "" { return; }
      if id in entries {
        entries := entries[id := entries[id].(name := name)];
      }
      if id in history {
        var xs := history[id];
        for i := 0 to |xs|
          invariant |xs| == |old(history)[id]|
          invariant forall k | 0 <= k < |xs| ::
                      xs[k] == if k < i then old(history)[id][k].(name := name) else old(history)[id][k]
        {
          xs := xs[i := xs[i].(name := name)];
        }
        assert xs == Named(old(history)[id], name);
        history := history[id := xs];
      }
    }

    /** The newest entries of an account, at most `limit`. */
    method HistoryFor(id: string, limit: int) returns (items: seq<Snapshot>)
      ensures items <= HistoryOf(Contents(), id)
      ensures var most := if 0 < limit <= HISTORY_LIMIT then limit else HISTORY_LIMIT;
              |items| == if id == "" then 0
                         else if |HistoryOf(Contents(), id)| < most then |HistoryOf(Contents(), id)| else most
    {
      if id == "" { return []; }
      var most := limit;
      if most <= 0 || most > HISTORY_LIMIT { most := HISTORY_LIMIT; }
      items := if id in history then history[id] else [];
      if |items| > most { items := items[..most]; }
    }

    /** Moves a legacy account's snapshots to its stable id. */
    method MigrateAccount(rawOldId: string, rawNewId: string, key: Encoder) returns (moved: bool)
      requires Valid()
      modifies this`entries, this`history, this`migrationRevision, this`migrationDirty
      ensures Valid()
      ensures moved == Moves(old(Contents()), rawOldId, rawNewId)
      ensures View() == CacheFiles.Step(old(View()), Do(MigrateOp(rawOldId, rawNewId)), key)
    {
      hide Trim, Merged, MovedEntries, Encode, Encodable, Decode, Finished, Adopted, Find;
      var oldId, newId := Trim(rawOldId), Trim(rawNewId);
      if oldId == "" || newId == "" || oldId == newId { return false; }
      if oldId !in entries && oldId !in history { return false; }
      MoveActive(oldId, newId);
      var own := if newId in history then history[newId] else [];
      var legacy := if oldId in history then history[oldId] else [];
      history := history - {oldId};
      if |own + legacy| == 0 {
        assert own + legacy == [];
        migrationRevision, migrationDirty := migrationRevision + 1, true;
        return true;
      }
      var merged := MergeHistories(own, legacy, newId, key);
      history := history[newId := merged];
      migrationRevision, migrationDirty := migrationRevision + 1, true;
      moved := true;
    }

    method MoveActive(oldId: string, newId: string)
      requires oldId != newId
      modifies this`entries
      ensures entries == MovedEntries(old(entries), oldId, newId)
    {
      if oldId in entries {
        var oldEntry := entries[oldId].(accountId := newId);
        if newId !in entries || Newer(oldEntry, entries[newId]) {
          entries := entries[newId := oldEntry];
        }
        entries := entries - {oldId};
      }
    }

    /** Writes the store unless the file could not be loaded. Nothing else happens meanwhile
        here; CacheFiles lets other operations in between the steps. */
    method Save(key: Encoder, temp: string, fault: Fault) returns (ok: bool)
      requires Valid() && temp !in directory.files && temp != path
      modifies this, directory
      ensures Valid()
      ensures View() == After(old(View()), [BeginSave, WriteFile(OutcomeOf(fault)), EndSave], key)
      ensures ok <==> MaySave(old(View()).cache, key) && fault.call.None?
      ensures Contents() == old(Contents())
    {
      hide Encode, Encodable, Decode;
      ghost var m := View();
      ThreeSteps(m, BeginSave, WriteFile(OutcomeOf(fault)), EndSave, key);
      if loadFailed { return false; }
      var captured := migrationRevision;
      if !Encodable(Contents(), key) { return false; }
      var written, _ := directory.WriteFileAtomic(path, Encode(Contents()), temp, fault);
      ok := written;
      if !ok {
        if migrationDirty { migrationFailed := true; }
        return;
      }
      lastWritten := captured;
      if migrationRevision == captured {
        migrationDirty, migrationFailed := false, false;
      }
    }

    /** Reads the file; `readable` says whether reading an existing file works. */
    method Load(readable: bool) returns (ok: bool)
      requires Valid()
      modifies this`entries, this`history, this`loadFailed
      ensures Valid()
      ensures View() == After(old(View()), [BeginLoad(readable), EndLoad], (x: Snapshot) => None)
      ensures ok <==> !loadFailed
      ensures !ok ==> Contents() == old(Contents())
    {
      hide Decode;
      ghost var m, key := View(), (x: Snapshot) => None;
      TwoSteps(m, BeginLoad(readable), EndLoad, key);
      if path !in directory.files {
        loadFailed := false;
        return true;
      }
      if !readable {
        loadFailed := true;
        return false;
      }
      var decoded := DecodeCache(directory.files[path].value);
      if decoded.None? {
        loadFailed := true;
        return false;
      }
      entries, history, loadFailed := decoded.value.entries, decoded.value.history, false;
      ok := true;
    }
  }
}
