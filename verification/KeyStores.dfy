/** The key store: one file per key, and one that names the active key. */
module KeyStores {
  import opened Wrappers
  import opened EncryptedBlocks
  import opened Sessions

  const DEFAULT_BLOCK_SIZE: nat := 4096

  type MasterKey = k: Bytes | |k| == KEY_SIZE witness seq(KEY_SIZE, _ => 0)

  datatype Status = Active | Retired | Revoked

  datatype KeyMetadata = KeyMetadata(keyId: string, createdAt: string, status: Status, masterKey: MasterKey, rotationOf: Option<string>)

  function ToConfig(meta: KeyMetadata): (config: EncryptionConfig)
    ensures config.Formed() && config.blockSize == 4096
  {
    EncryptionConfig(meta.masterKey, meta.keyId, DEFAULT_BLOCK_SIZE)
  }

  /** The directory: key files by id, and what the active file says if there is one. */
  datatype Store = Store(files: map<string, KeyMetadata>, activeId: Option<string>) {
    /** Every file is named after the key in it. */
    ghost predicate Consistent() {
      forall id :: id in files ==> files[id].keyId == id
    }

    ghost predicate IsRevoked(id: string) {
      id in files && files[id].status == Revoked
    }
  }

  // ---------- The operations on the directory ----------

  /** What drawing a new key depends on: random bytes, a random id and the clock. */
  datatype Draw = Draw(keyId: string, masterKey: MasterKey, now: string)

  function Generated(s: Store, d: Draw, rotationOf: Option<string>): Store {
    s.(files := s.files[d.keyId := KeyMetadata(d.keyId, d.now, Active, d.masterKey, rotationOf)])
  }

  function StatusAfter(id: string, activated: string, status: Status): Status {
    if id == activated then Active else if status == Active then Retired else status
  }

  function Activated(s: Store, id: string): Store {
    if id !in s.files then s
    else Store(map k | k in s.files :: s.files[k].(status := StatusAfter(k, id, s.files[k].status)), Some(id))
  }

  lemma ActivatedFiles(before: map<string, KeyMetadata>, after: map<string, KeyMetadata>, id: string)
    requires id in before && after.Keys == before.Keys
    requires forall k :: k in before ==> after[k] == before[k].(status := StatusAfter(k, id, before[k].status))
    ensures forall activeId :: Activated(Store(before, activeId), id) == Store(after, Some(id))
  {
    assert Activated(Store(before, None), id).files == after;
  }

  /** The key the active file names; an empty id counts as none. */
  function Current(s: Store): Option<KeyMetadata> {
    match s.activeId
    case Some(id) => if id != "" && id in s.files then Some(s.files[id]) else None
    case None => None
  }

  function Rotated(s: Store, d: Draw): Store {
    var rotationOf := match Current(s) case Some(meta) => Some(meta.keyId) case None => None;
    Activated(Generated(s, d, rotationOf), d.keyId)
  }

  function WithRevoked(s: Store, id: string): Store {
    if id in s.files then s.(files := s.files[id := s.files[id].(status := Revoked)]) else s
  }

  /** The directory after the active configuration was asked for; a key is made only if there is none. */
  function Served(s: Store, d: Draw): Store {
    if Current(s).Some? then s else Activated(Generated(s, d, None), d.keyId)
  }

  function ServedConfig(s: Store, d: Draw): EncryptionConfig {
    match Current(s)
    case Some(meta) => ToConfig(meta)
    case None => EncryptionConfig(d.masterKey, d.keyId, DEFAULT_BLOCK_SIZE)
  }

  function FileName(id: string): string {
    "key_" + id + ".json"
  }

  /** `a` does not come after `b`, comparing character by character. */
  predicate NotAfter(a: string, b: string) {
    a == "" || (b != "" && (a[0] < b[0] || (a[0] == b[0] && NotAfter(a[1..], b[1..]))))
  }

  /** That is, where they first differ `a` has the lesser character, or `a` is all of `b` up to there. */
  lemma {:induction false} OrderIsLexicographic(a: string, b: string)
    ensures NotAfter(a, b) <==>
              a <= b || exists i :: 0 <= i < |a| && i < |b| && a[..i] == b[..i] && a[i] < b[i]
  {
    if a != "" && b != "" {
      OrderIsLexicographic(a[1..], b[1..]);
      if a[0] == b[0] {
        assert a <= b <==> a[1..] <= b[1..] by {
          assert a == [a[0]] + a[1..] && b == [b[0]] + b[1..];
        }
        if i :| 0 <= i < |a[1..]| && i < |b[1..]| && a[1..][..i] == b[1..][..i] && a[1..][i] < b[1..][i] {
          assert a[..i + 1] == [a[0]] + a[1..][..i] && b[..i + 1] == [b[0]] + b[1..][..i];
          assert a[i + 1] < b[i + 1];
        }
        if i :| 0 <= i < |a| && i < |b| && a[..i] == b[..i] && a[i] < b[i] {
          assert i > 0;
          assert a[1..][..i - 1] == a[..i][1..] && b[1..][..i - 1] == b[..i][1..];
          assert a[1..][i - 1] < b[1..][i - 1];
        }
      } else if a[0] < b[0] {
        assert a[..0] == b[..0];
      }
    }
  }

  /** So the ending of the name counts: an id can come after one that it begins. */
  lemma EndingCounts()
    ensures NotAfter(FileName("a-"), FileName("a")) && !NotAfter(FileName("a"), FileName("a-"))
  {
    assert FileName("a") == "key_a" + ".json" && FileName("a-") == "key_a" + "-.json";
    CommonBeginning("key_a", ".json", "-.json");
    CommonBeginning("key_a", "-.json", ".json");
  }

  lemma {:induction false} CommonBeginning(front: string, a: string, b: string)
    ensures NotAfter(front + a, front + b) <==> NotAfter(a, b)
  {
    if front == "" {
      assert front + a == a && front + b == b;
    } else {
      CommonBeginning(front[1..], a, b);
      assert (front + a)[1..] == front[1..] + a && (front + b)[1..] == front[1..] + b;
    }
  }

  lemma {:induction false} OrderIsTotal(a: string, b: string)
    ensures NotAfter(a, b) || NotAfter(b, a)
    ensures NotAfter(a, b) && NotAfter(b, a) ==> a == b
  {
    if a != "" && b != "" {
      OrderIsTotal(a[1..], b[1..]);
      assert a == [a[0]] + a[1..] && b == [b[0]] + b[1..];
    }
  }

  lemma {:induction false} OrderIsTransitive(a: string, b: string, c: string)
    requires NotAfter(a, b) && NotAfter(b, c)
    ensures NotAfter(a, c)
  {
    if a != "" && a[0] == b[0] == c[0] {
      OrderIsTransitive(a[1..], b[1..], c[1..]);
    }
  }

  /** The file of `id` comes first among these. */
  predicate Leads(id: string, ids: set<string>) {
    id in ids && forall other :: other in ids ==> NotAfter(FileName(id), FileName(other))
  }

  lemma {:induction false} LeaderExists(ids: set<string>)
    requires ids != {}
    ensures exists id :: Leads(id, ids)
  {
    var x :| x in ids;
    OrderIsTotal(FileName(x), FileName(x));
    if ids == {x} {
      assert Leads(x, ids);
    } else {
      var rest := ids - {x};
      LeaderExists(rest);
      var y :| Leads(y, rest);
      OrderIsTotal(FileName(x), FileName(y));
      if NotAfter(FileName(x), FileName(y)) {
        forall other | other in ids
          ensures NotAfter(FileName(x), FileName(other))
        {
          if other != x {
            OrderIsTransitive(FileName(x), FileName(y), FileName(other));
          }
        }
        assert Leads(x, ids);
      } else {
        assert Leads(y, ids);
      }
    }
  }

  /** A listing names every key file once, in the order of the file names. */
  ghost predicate Lists(keys: seq<KeyMetadata>, files: map<string, KeyMetadata>) {
    && (forall i :: 0 <= i < |keys| ==> keys[i].keyId in files && files[keys[i].keyId] == keys[i])
    && (forall i, j :: 0 <= i < j < |keys| ==> keys[i].keyId != keys[j].keyId)
    && (forall i, j :: 0 <= i < j < |keys| ==> NotAfter(FileName(keys[i].keyId), FileName(keys[j].keyId)))
    && (forall id :: id in files ==> exists i :: 0 <= i < |keys| && keys[i].keyId == id)
  }

  lemma {:induction false} FileNamesDiffer(a: string, b: string)
    requires FileName(a) == FileName(b)
    ensures a == b
  {
    assert FileName(a)[4..|FileName(a)| - 5] == a && FileName(b)[4..|FileName(b)| - 5] == b;
  }

  /** There is one listing only. */
  lemma {:induction false} ListingIsUnique(a: seq<KeyMetadata>, b: seq<KeyMetadata>, files: map<string, KeyMetadata>)
    requires Lists(a, files) && Lists(b, files)
    ensures a == b
  {
    hide *;
    SizeOfListing(a, files);
    SizeOfListing(b, files);
    if files.Keys != {} {
      HeadsAgree(a, b, files);
      RestIsListing(a, files);
      RestIsListing(b, files);
      ListingIsUnique(a[1..], b[1..], files - {a[0].keyId});
      assert a == [a[0]] + a[1..] && b == [b[0]] + b[1..];
    }
  }

  lemma SizeOfListing(keys: seq<KeyMetadata>, files: map<string, KeyMetadata>)
    requires Lists(keys, files)
    ensures keys == [] <==> files.Keys == {}
  {
    if keys != [] {
      assert keys[0].keyId in files.Keys;
    }
    if files.Keys != {} {
      var id :| id in files.Keys;
      var i :| 0 <= i < |keys| && keys[i].keyId == id;
    }
  }

  lemma HeadLeads(keys: seq<KeyMetadata>, files: map<string, KeyMetadata>)
    requires Lists(keys, files) && files.Keys != {}
    ensures keys != [] && Leads(keys[0].keyId, files.Keys) && files[keys[0].keyId] == keys[0]
  {
    var some :| some in files.Keys;
    var at :| 0 <= at < |keys| && keys[at].keyId == some;
    forall id | id in files.Keys
      ensures NotAfter(FileName(keys[0].keyId), FileName(id))
    {
      var i :| 0 <= i < |keys| && keys[i].keyId == id;
      OrderIsTotal(FileName(id), FileName(id));
    }
  }

  lemma HeadsAgree(a: seq<KeyMetadata>, b: seq<KeyMetadata>, files: map<string, KeyMetadata>)
    requires Lists(a, files) && Lists(b, files) && files.Keys != {}
    ensures a != [] && b != [] && a[0] == b[0]
  {
    HeadLeads(a, files);
    HeadLeads(b, files);
    OrderIsTotal(FileName(a[0].keyId), FileName(b[0].keyId));
    FileNamesDiffer(a[0].keyId, b[0].keyId);
  }

  lemma RestIsListing(keys: seq<KeyMetadata>, files: map<string, KeyMetadata>)
    requires Lists(keys, files) && keys != []
    ensures Lists(keys[1..], files - {keys[0].keyId})
  {
    var rest, left := keys[1..], files - {keys[0].keyId};
    forall id | id in left
      ensures exists i :: 0 <= i < |rest| && rest[i].keyId == id
    {
      var i :| 0 <= i < |keys| && keys[i].keyId == id;
      assert rest[i - 1].keyId == id;
    }
  }

  /** A listing in progress: what is left comes behind what is listed. */
  ghost predicate Progress(keys: seq<KeyMetadata>, left: set<string>, files: map<string, KeyMetadata>) {
    && left <= files.Keys
    && Lists(keys, files - left)
    && (forall i, id :: 0 <= i < |keys| && id in left ==> NotAfter(FileName(keys[i].keyId), FileName(id)))
  }

  lemma ProgressStep(keys: seq<KeyMetadata>, left: set<string>, files: map<string, KeyMetadata>, id: string)
    requires Progress(keys, left, files) && Leads(id, left) && files[id].keyId == id
    ensures Progress(keys + [files[id]], left - {id}, files)
  {
    var keys', left' := keys + [files[id]], left - {id};
    assert forall i :: 0 <= i < |keys| ==> keys[i].keyId in files - left;
    forall other | other in files - left'
      ensures exists i :: 0 <= i < |keys'| && keys'[i].keyId == other
    {
      if other == id {
        assert keys'[|keys|].keyId == id;
      } else {
        assert other in files - left;
        var i :| 0 <= i < |keys| && keys[i].keyId == other;
        assert keys'[i].keyId == other;
      }
    }
  }

  class KeyStore {
    var files: map<string, KeyMetadata>
    var activeId: Option<string>

    function State(): Store
      reads this
    {
      Store(files, activeId)
    }

    constructor ()
      ensures State() == Store(map[], None)
    {
      files, activeId := map[], None;
    }

    method Save(meta: KeyMetadata)
      modifies this`files
      ensures files == old(files)[meta.keyId := meta]
    {
      files := files[meta.keyId := meta];
    }

    method Generate(d: Draw, rotationOf: Option<string>) returns (meta: KeyMetadata)
      modifies this
      ensures State() == Generated(old(State()), d, rotationOf)
      ensures meta == files[d.keyId]
    {
      meta := KeyMetadata(d.keyId, d.now, Active, d.masterKey, rotationOf);
      Save(meta);
    }

    function Load(keyId: string): Option<KeyMetadata>
      reads this
    {
      if keyId in files then Some(files[keyId]) else None
    }

    method ListKeys() returns (keys: seq<KeyMetadata>)
      requires State().Consistent()
      ensures Lists(keys, files)
    {
      keys := [];
      var left := files.Keys;
      while left != {}
        invariant Progress(keys, left, files)
        decreases |left|
      {
        LeaderExists(left);
        var id :| Leads(id, left);
        ProgressStep(keys, left, files, id);
        keys := keys + [files[id]];
        left := left - {id};
      }
      assert files - {} == files;
    }

    /** Every other active key ends up retired and nothing else changes. An unknown key is an error and
        changes nothing. */
    method Activate(keyId: string) returns (ok: bool)
      requires State().Consistent()
      modifies this
      ensures ok == (keyId in old(files))
      ensures State() == Activated(old(State()), keyId)
    {
      var loaded := Load(keyId);
      if loaded == None {
        return false;
      }
      var meta := loaded.value;
      ghost var before := files;
      RetireOthers(keyId);
      Save(meta.(status := Active));
      activeId := Some(keyId);
      ActivatedFiles(before, files, keyId);
      ok := true;
    }

    /** The loop over the listing. */
    method RetireOthers(keyId: string)
      requires State().Consistent()
      modifies this`files
      ensures files.Keys == old(files.Keys)
      ensures forall id :: id in files && id != keyId ==>
                files[id] == old(files)[id].(status := StatusAfter(id, keyId, old(files)[id].status))
    {
      ghost var before := files;
      var keys := ListKeys();
      hide NotAfter, FileName;
      for i := 0 to |keys|
        invariant files.Keys == before.Keys
        invariant forall j :: i <= j < |keys| ==> files[keys[j].keyId] == before[keys[j].keyId]
        invariant forall j :: 0 <= j < i ==> keys[j].keyId != keyId ==>
                    files[keys[j].keyId] == keys[j].(status := StatusAfter(keys[j].keyId, keyId, keys[j].status))
      {
        if keys[i].keyId != keyId && keys[i].status == Active {
          Save(keys[i].(status := Retired));
        }
      }
      forall id | id in before && id != keyId
        ensures files[id] == before[id].(status := StatusAfter(id, keyId, before[id].status))
      {
        var j :| 0 <= j < |keys| && keys[j].keyId == id;
      }
    }

    method GetActive() returns (meta: Option<KeyMetadata>)
      ensures meta == Current(State())
    {
      if activeId == None {
        return None;
      }
      var keyId := activeId.value;
      if keyId != "" {
        return Load(keyId);
      }
      meta := None;
    }

    method Rotate(d: Draw) returns (meta: KeyMetadata)
      requires State().Consistent()
      modifies this
      ensures State() == Rotated(old(State()), d)
      ensures meta == files[d.keyId]
    {
      var current := GetActive();
      meta := Generate(d, match current case Some(m) => Some(m.keyId) case None => None);
      var _ := Activate(meta.keyId);
    }

    method Revoke(keyId: string) returns (ok: bool)
      modifies this
      ensures ok == (keyId in old(files))
      ensures State() == WithRevoked(old(State()), keyId)
    {
      var loaded := Load(keyId);
      if loaded == None {
        return false;
      }
      files := files[keyId := loaded.value.(status := Revoked)];
      ok := true;
    }

    method GetActiveConfig(d: Draw) returns (config: EncryptionConfig)
      requires State().Consistent()
      modifies this
      ensures State() == Served(old(State()), d)
      ensures config == ServedConfig(old(State()), d)
    {
      var meta := GetActive();
      if meta == None {
        var made := Generate(d, None);
        var _ := Activate(made.keyId);
        return ToConfig(made);
      }
      config := ToConfig(meta.value);
    }

    method GetDecryptorKeys() returns (configs: seq<EncryptionConfig>)
      requires State().Consistent()
      ensures exists keys :: Lists(keys, files) && configs == Usable(keys)
    {
      var keys := ListKeys();
      configs := Usable(keys);
    }
  }

  /** The configurations of the keys that are not revoked. */
  function Usable(keys: seq<KeyMetadata>): seq<EncryptionConfig> {
    if keys == [] then []
    else
      var front, last := Usable(keys[..|keys| - 1]), keys[|keys| - 1];
      if last.status != Revoked then front + [ToConfig(last)] else front
  }

  lemma {:induction false} UsableInOrder(a: seq<KeyMetadata>, b: seq<KeyMetadata>)
    ensures Usable(a + b) == Usable(a) + Usable(b)
  {
    if b == [] {
      assert a + b == a;
    } else {
      assert (a + b)[..|a + b| - 1] == a + b[..|b| - 1];
      UsableInOrder(a, b[..|b| - 1]);
    }
  }

  // ---------- Runs ----------

  datatype Op =
    | Generate(draw: Draw, rotationOf: Option<string>)
    | Activate(keyId: string)
    | Rotate(draw: Draw)
    | Revoke(keyId: string)
    | ServeActive(draw: Draw)

  function Apply(s: Store, op: Op): Store {
    match op
    case Generate(d, rotationOf) => Generated(s, d, rotationOf)
    case Activate(id) => Activated(s, id)
    case Rotate(d) => Rotated(s, d)
    case Revoke(id) => WithRevoked(s, id)
    case ServeActive(d) => Served(s, d)
  }

  function After(run: seq<Op>): Store {
    if run == [] then Store(map[], None) else Apply(After(run[..|run| - 1]), run[|run| - 1])
  }

  /** The id the operation draws, if it draws one, is new. */
  predicate DrawsFresh(s: Store, op: Op) {
    match op
    case Generate(d, _) => d.keyId !in s.files
    case Rotate(d) => d.keyId !in s.files
    case ServeActive(d) => Current(s).Some? || d.keyId !in s.files
    case _ => true
  }

  predicate FreshRun(run: seq<Op>) {
    run == [] || (FreshRun(run[..|run| - 1]) && DrawsFresh(After(run[..|run| - 1]), run[|run| - 1]))
  }

  /** In every run files are named after their keys and the active file names a stored key. */
  lemma {:induction false} ActiveIdNeverDangles(run: seq<Op>)
    ensures After(run).Consistent()
    ensures After(run).activeId.Some? ==> After(run).activeId.value in After(run).files
  {
    if run != [] {
      ActiveIdNeverDangles(run[..|run| - 1]);
    }
  }

  /** What a key file says that no operation may change. */
  ghost predicate SameKey(a: KeyMetadata, b: KeyMetadata) {
    a.keyId == b.keyId && a.createdAt == b.createdAt && a.masterKey == b.masterKey && a.rotationOf == b.rotationOf
  }

  lemma StepLosesNothing(s: Store, op: Op, id: string)
    requires DrawsFresh(s, op) && id in s.files
    ensures id in Apply(s, op).files && SameKey(Apply(s, op).files[id], s.files[id])
  {
  }

  /** While drawn ids are new no key file is ever lost or bound to other bytes. */
  lemma {:induction false} NothingIsLost(run: seq<Op>, more: seq<Op>, id: string)
    requires FreshRun(run + more) && id in After(run).files
    ensures id in After(run + more).files && SameKey(After(run + more).files[id], After(run).files[id])
  {
    if more == [] {
      assert run + more == run;
    } else {
      var front, op := more[..|more| - 1], more[|more| - 1];
      assert (run + more)[..|run + more| - 1] == run + front;
      NothingIsLost(run, front, id);
      StepLosesNothing(After(run + front), op, id);
    }
  }

  /** A repeated id does lose a key: a draw keeps every stored key if and only if its id is new or it
      draws the same key again. */
  lemma DrawKeepsKeysIff(s: Store, d: Draw, rotationOf: Option<string>)
    requires s.Consistent()
    ensures (forall id :: id in s.files ==> SameKey(Generated(s, d, rotationOf).files[id], s.files[id]))
        <==> d.keyId !in s.files
             || (s.files[d.keyId].masterKey == d.masterKey && s.files[d.keyId].createdAt == d.now
                 && s.files[d.keyId].rotationOf == rotationOf)
  {
  }

  /** Right after a key is activated it is the only active one and the active file names it; keys that were
      revoked, other than it, stay revoked. */
  lemma OneActive(s: Store, id: string)
    requires id in s.files
    ensures var s' := Activated(s, id);
            && s'.activeId == Some(id) && s'.files.Keys == s.files.Keys
            && (forall k :: k in s'.files ==> (s'.files[k].status == Active <==> k == id))
            && (forall k :: s'.IsRevoked(k) <==> s.IsRevoked(k) && k != id)
  {
  }

  /** The same after a rotation, whose new key names the one it replaces. */
  lemma OneActiveAfterRotation(s: Store, d: Draw)
    requires s.Consistent() && d.keyId !in s.files
    ensures var s' := Rotated(s, d);
            && s'.activeId == Some(d.keyId) && s'.files.Keys == s.files.Keys + {d.keyId}
            && (forall k :: k in s'.files ==> (s'.files[k].status == Active <==> k == d.keyId))
            && (forall k :: s'.IsRevoked(k) <==> s.IsRevoked(k))
            && s'.files[d.keyId].rotationOf == (if Current(s).Some? then s.activeId else None)
  {
  }

  /** Ids generated, but not activated, since the last time a key was activated. */
  function Idle(run: seq<Op>): set<string> {
    if run == [] then {}
    else
      var front := run[..|run| - 1];
      match run[|run| - 1]
      case Generate(d, _) => Idle(front) + {d.keyId}
      case Activate(id) => if id in After(front).files then {} else Idle(front)
      case Rotate(_) => {}
      case Revoke(id) => Idle(front) - {id}
      case ServeActive(_) => if Current(After(front)).Some? then Idle(front) else {}
  }

  /** In every run with new ids the active keys are exactly the idle ones and the one the active file names,
      unless that one has been revoked since. */
  lemma {:induction false} ActiveKeysExplained(run: seq<Op>, id: string)
    requires FreshRun(run)
    ensures var s := After(run);
            id in s.files && s.files[id].status == Active
            <==> id in Idle(run) || (s.activeId == Some(id) && !s.IsRevoked(id))
  {
    ActiveIdNeverDangles(run);
    if run != [] {
      ActiveIdNeverDangles(run[..|run| - 1]);
      ActiveKeysExplained(run[..|run| - 1], id);
    }
  }

  /** Revoking makes a stored key revoked, whatever it was before, keeps what its file says otherwise, and
      touches no other file nor the choice of the active key. */
  lemma RevokingRevokes(s: Store, id: string)
    requires id in s.files
    ensures var s' := Apply(s, Op.Revoke(id));
            && s'.IsRevoked(id) && SameKey(s'.files[id], s.files[id])
            && s'.files.Keys == s.files.Keys && s'.activeId == s.activeId
            && forall k :: k in s.files && k != id ==> s'.files[k] == s.files[k]
    ensures forall k :: k !in s.files ==> Apply(s, Op.Revoke(k)) == s
  {
  }

  /** A revoked key stays revoked for as long as nobody activates it by name. */
  lemma {:induction false} RevocationHolds(run: seq<Op>, more: seq<Op>, id: string)
    requires FreshRun(run + more) && After(run).IsRevoked(id)
    requires forall i :: 0 <= i < |more| ==> more[i] != Op.Activate(id)
    ensures After(run + more).IsRevoked(id)
  {
    if more == [] {
      assert run + more == run;
    } else {
      var front := more[..|more| - 1];
      assert (run + more)[..|run + more| - 1] == run + front;
      RevocationHolds(run, front, id);
    }
  }

  /** Activating it by name does undo the revocation. */
  lemma ActivatingUndoesRevocation(s: Store, id: string)
    requires s.IsRevoked(id)
    ensures !Activated(s, id).IsRevoked(id) && Current(Activated(s, id)) == if id == "" then None else Some(s.files[id].(status := Active))
  {
  }

  // ---------- What stays readable ----------

  /** A decryptor made from the first configuration and given the others. */
  function RingOf(configs: seq<EncryptionConfig>): Keyring
    requires configs != []
  {
    if |configs| == 1 then Start(configs[0]) else AddKey(RingOf(configs[..|configs| - 1]), configs[|configs| - 1])
  }

  /** The latest configuration given for each id. */
  function Latest(configs: seq<EncryptionConfig>): map<string, EncryptionConfig> {
    if configs == [] then map[]
    else Latest(configs[..|configs| - 1])[configs[|configs| - 1].keyId := configs[|configs| - 1]]
  }

  lemma {:induction false} RingHoldsLatest(configs: seq<EncryptionConfig>)
    requires configs != []
    ensures RingOf(configs) == Keyring(Latest(configs), map[])
  {
    if |configs| == 1 {
      assert Latest(configs[..0]) == map[];
    } else {
      RingHoldsLatest(configs[..|configs| - 1]);
    }
  }

  lemma LatestUsable(keys: seq<KeyMetadata>)
    requires keys != []
    ensures var front, last := Latest(Usable(keys[..|keys| - 1])), keys[|keys| - 1];
            Latest(Usable(keys)) == if last.status != Revoked then front[last.keyId := ToConfig(last)] else front
  {
    var configs := Usable(keys);
    if keys[|keys| - 1].status != Revoked {
      assert configs[..|configs| - 1] == Usable(keys[..|keys| - 1]);
    }
  }

  ghost predicate DistinctIds(keys: seq<KeyMetadata>) {
    forall i, j :: 0 <= i < j < |keys| ==> keys[i].keyId != keys[j].keyId
  }

  /** A decryptor given the usable keys of a listing knows every listed key that is not revoked. */
  lemma {:induction false} UsableKeyKnown(keys: seq<KeyMetadata>, i: nat)
    requires DistinctIds(keys) && i < |keys| && keys[i].status != Revoked
    ensures keys[i].keyId in Latest(Usable(keys)) && Latest(Usable(keys))[keys[i].keyId] == ToConfig(keys[i])
  {
    LatestUsable(keys);
    if i < |keys| - 1 {
      UsableKeyKnown(keys[..|keys| - 1], i);
    }
  }

  /** And it knows no other. */
  lemma {:induction false} KnownKeyUsable(keys: seq<KeyMetadata>, id: string) returns (i: nat)
    requires id in Latest(Usable(keys))
    ensures i < |keys| && keys[i].keyId == id && keys[i].status != Revoked
  {
    LatestUsable(keys);
    if keys[|keys| - 1].status != Revoked && keys[|keys| - 1].keyId == id {
      i := |keys| - 1;
    } else {
      i := KnownKeyUsable(keys[..|keys| - 1], id);
    }
  }

  /** For a stored key, a decryptor given the store's decryption keys looks up the session key a fresh
      derivation gives if the key is not revoked, and none at all if it is. */
  lemma StoreKeyLookup(cipher: Cipher, s: Store, keys: seq<KeyMetadata>, id: string, session: Bytes)
    requires s.Consistent() && id in s.files && Lists(keys, s.files) && Usable(keys) != []
    ensures KeyFor(cipher, RingOf(Usable(keys)), id, session)
         == if s.IsRevoked(id) then None else Some(cipher.derive(s.files[id].masterKey, session))
  {
    RingHoldsLatest(Usable(keys));
    var i :| 0 <= i < |keys| && keys[i].keyId == id;
    assert keys[i] == s.files[id];
    if s.IsRevoked(id) {
      if id in Latest(Usable(keys)) {
        var _ := KnownKeyUsable(keys, id);
      }
    } else {
      UsableKeyKnown(keys, i);
    }
  }

  /** A block made under a key while it was stored decrypts after any further run, with a decryptor
      given the store's decryption keys in any order, if and only if the key is not revoked by then. */
  lemma BlocksStayReadable(cipher: Cipher, run: seq<Op>, more: seq<Op>, id: string, keys: seq<KeyMetadata>,
                           session: Bytes, plaintext: Bytes, nonce: Nonce)
    requires cipher.Lawful() && FreshRun(run + more) && id in After(run).files
    requires Lists(keys, After(run + more).files) && Usable(keys) != []
    ensures var block := Sealed(cipher, ToConfig(After(run).files[id]), session, plaintext, nonce);
            Opened(cipher, RingOf(Usable(keys)), block, session)
            == if After(run + more).IsRevoked(id) then Err(UnknownKey(id)) else Ok(plaintext)
  {
    var meta, ring := After(run).files[id], RingOf(Usable(keys));
    NothingIsLost(run, more, id);
    ActiveIdNeverDangles(run);
    ActiveIdNeverDangles(run + more);
    StoreKeyLookup(cipher, After(run + more), keys, id, session);
    if !After(run + more).IsRevoked(id) {
      SealedOpens(cipher, ToConfig(meta), ring, session, plaintext, nonce);
    }
  }

  /** Once a key is revoked, its blocks are refused as made under an unknown key, after any further run in
      which nobody activates it by name. */
  lemma RevokedBlocksAreRefused(cipher: Cipher, run: seq<Op>, more: seq<Op>, id: string, keys: seq<KeyMetadata>,
                                session: Bytes, plaintext: Bytes, nonce: Nonce)
    requires FreshRun(run + [Op.Revoke(id)] + more) && id in After(run).files
    requires forall i :: 0 <= i < |more| ==> more[i] != Op.Activate(id)
    ensures var later := After(run + [Op.Revoke(id)] + more);
            var block := Sealed(cipher, ToConfig(After(run).files[id]), session, plaintext, nonce);
            && later.IsRevoked(id)
            && (Lists(keys, later.files) && Usable(keys) != [] ==>
                  Opened(cipher, RingOf(Usable(keys)), block, session) == Err(UnknownKey(id)))
  {
    var revoked := run + [Op.Revoke(id)];
    assert revoked[..|run|] == run;
    ActiveIdNeverDangles(run);
    ActiveIdNeverDangles(revoked + more);
    RevokingRevokes(After(run), id);
    RevocationHolds(revoked, more, id);
    if Lists(keys, After(revoked + more).files) && Usable(keys) != [] {
      StoreKeyLookup(cipher, After(revoked + more), keys, id, session);
    }
  }

  /** The active configuration keeps being served after its key is revoked. What is encrypted under it
      can be decrypted with the store's own decryption keys if and only if the key it is for is not
      revoked. */
  lemma ServedConfigReadable(cipher: Cipher, s: Store, d: Draw, keys: seq<KeyMetadata>, session: Bytes, plaintext: Bytes, nonce: Nonce)
    requires cipher.Lawful() && s.Consistent()
    requires Lists(keys, Served(s, d).files) && Usable(keys) != []
    ensures var config := ServedConfig(s, d);
            Opened(cipher, RingOf(Usable(keys)), Sealed(cipher, config, session, plaintext, nonce), session) == Ok(plaintext)
            <==> (Current(s) == None || Current(s).value.status != Revoked)
    ensures Current(s).Some? ==> ServedConfig(WithRevoked(s, s.activeId.value), d) == ServedConfig(s, d)
  {
    var config, s' := ServedConfig(s, d), Served(s, d);
    StoreKeyLookup(cipher, s', keys, config.keyId, session);
    if !s'.IsRevoked(config.keyId) {
      SealedOpens(cipher, config, RingOf(Usable(keys)), session, plaintext, nonce);
    }
  }
}
