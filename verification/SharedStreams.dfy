/**
 Two-way synchronisation of a folder with a shared album (src/sharedstreams.rs).

 Files are their names here: what is in them, and with it what a download writes, is not
 part of this model.
 */
module SharedStreams {
  import opened Bytes

  type Id = bytes
  type Name = bytes

  // ----- assets -----

  datatype AssetFile = AssetFile(quicktime: bool, size: nat)

  datatype Details = Details(filename: Name, isLive: bool, files: seq<AssetFile>)

  /** The file to download: the largest, the last of several, and no movie of a live photo. */
  function Main(details: Details): (r: Option<AssetFile>)
    ensures r.None? <==> forall i :: 0 <= i < |details.files| ==> details.isLive && details.files[i].quicktime
    ensures r.Some? ==> r.value in details.files && !(details.isLive && r.value.quicktime)
    ensures r.Some? ==> forall i :: 0 <= i < |details.files| && !(details.isLive && details.files[i].quicktime)
                          ==> details.files[i].size <= r.value.size
    decreases |details.files|
  {
    var n := |details.files|;
    if n == 0 then None
    else
      var last := details.files[n - 1];
      var best := Main(details.(files := details.files[..n - 1]));
      if details.isLive && last.quicktime then best
      else if best.None? || best.value.size <= last.size then Some(last)
      else best
  }

  /** How a request goes: it may fail although it has been done. */
  datatype Request = Works | Fails | FailsDone

  /**
   What goes wrong in a sync: the requests for the deltas, the three requests of the steps, the files whose
   presence cannot be told, and the local files that cannot be packed.
   */
  datatype Faults = Faults(deltas: bool, delete: Request, download: bool, create: Request, unseen: set<Name>, unpackable: set<Name>)

  /**
   What does not change during a sync: the details and the GUIDs of assets, what the server and
   the file system decline to do without an error, and what fails.
   */
  datatype Env = Env(details: Id -> Details, guid: Name -> Id,
                     undeletable: set<Id>, locked: set<Name>, uncreatable: set<Name>, faults: Faults)

  // ----- the two sides -----

  /** The album and the folder; between two syncs everything may change. */
  class World {
    var env: Env
    var album: set<Id>
    var files: set<Name>

    constructor (env: Env, album: set<Id>, files: set<Name>)
      ensures this.env == env && this.album == album && this.files == files
    {
      this.env, this.album, this.files := env, album, files;
    }

    /** The server may decline for some of the assets; that is only logged. */
    method DeleteAsset(assets: seq<Id>) returns (ok: bool)
      modifies this`album
      ensures ok == env.faults.delete.Works?
      ensures album == old(album) - if env.faults.delete.Fails? then {} else (set a | a in assets) - env.undeletable
    {
      ok := env.faults.delete.Works?;
      if !env.faults.delete.Fails? {
        album := album - ((set a | a in assets) - env.undeletable);
      }
    }

    method CreateAsset(assets: seq<Id>) returns (ok: bool)
      modifies this`album
      ensures ok == env.faults.create.Works?
      ensures album == old(album) + if env.faults.create.Fails? then {} else (set a | a in assets)
    {
      ok := env.faults.create.Works?;
      if !env.faults.create.Fails? {
        album := album + (set a | a in assets);
      }
    }

    method RemoveFile(name: Name)
      modifies this`files
      ensures files == if name in env.locked then old(files) else old(files) - {name}
    {
      if name !in env.locked {
        files := files - {name};
      }
    }

    method CreateFile(name: Name) returns (ok: bool)
      modifies this`files
      ensures ok <==> name !in env.uncreatable
      ensures files == if ok then old(files) + {name} else old(files)
    {
      ok := name !in env.uncreatable;
      if ok {
        files := files + {name};
      }
    }

    /** None if it cannot be told. */
    function Exists(name: Name): Option<bool>
      reads this
    {
      if name in env.faults.unseen then None else Some(name in files)
    }
  }

  method Enumerate<T(==)>(s: set<T>) returns (r: seq<T>)
    ensures forall x :: x in r <==> x in s
  {
    r := [];
    var left := s;
    while left != {}
      invariant left <= s
      invariant forall x :: x in r <==> x in s && x !in left
    {
      var x :| x in left;
      r, left := r + [x], left - {x};
    }
  }

  // ----- deltas -----

  /** The state of the folder: the assets it knows with their file names, the album, the files. */
  datatype Snapshot = Snapshot(assetMap: map<Id, Name>, album: set<Id>, files: set<Name>) {
    function NewRemote(): set<Id> {
      album - assetMap.Keys
    }

    function DeletedRemote(): set<Id> {
      assetMap.Keys - album
    }

    function DeletedLocal(): set<Id> {
      set a | a in assetMap && assetMap[a] !in files
    }

    function NewLocal(env: Env): (r: set<Name>)
      ensures forall f :: f in r <==>
        f in files && (forall a :: a in assetMap ==> assetMap[a] != f)
        && (forall a :: a in NewRemote() ==> env.details(a).filename != f)
    {
      files - assetMap.Values - (set a | a in NewRemote() :: env.details(a).filename)
    }

    predicate HasChanges(env: Env) {
      NewRemote() != {} || DeletedRemote() != {} || NewLocal(env) != {} || DeletedLocal() != {}
    }
  }

  datatype DeltaState = DeltaState(newRemote: seq<Id>, deletedRemote: seq<Id>, newLocal: seq<Name>, deletedLocal: seq<Id>) {
    predicate HasChanges() {
      newRemote != [] || deletedRemote != [] || newLocal != [] || deletedLocal != []
    }

    /** These are the deltas of `s`, in any order. */
    ghost predicate Of(s: Snapshot, env: Env) {
      && (forall a :: a in newRemote <==> a in s.NewRemote())
      && (forall a :: a in deletedRemote <==> a in s.DeletedRemote())
      && (forall f :: f in newLocal <==> f in s.NewLocal(env))
      && (forall a :: a in deletedLocal <==> a in s.DeletedLocal())
    }
  }

  // ----- what a successful sync comes to -----

  ghost predicate Injective(assetMap: map<Id, Name>) {
    forall a, b :: a in assetMap && b in assetMap && assetMap[a] == assetMap[b] ==> a == b
  }

  /** New assets bring file names not in the folder and not alike, new uploads GUIDs not in use and not alike. */
  ghost predicate Fresh(s: Snapshot, env: Env) {
    && (forall a :: a in s.NewRemote() ==> env.details(a).filename !in s.files)
    && (forall a, b :: a in s.NewRemote() && b in s.NewRemote() && env.details(a).filename == env.details(b).filename ==> a == b)
    && (forall f :: f in s.NewLocal(env) ==> env.guid(f) !in s.album && env.guid(f) !in s.assetMap)
    && (forall f, g :: f in s.NewLocal(env) && g in s.NewLocal(env) && env.guid(f) == env.guid(g) ==> f == g)
  }

  ghost predicate Nice(s: Snapshot, env: Env) {
    Injective(s.assetMap) && Fresh(s, env)
  }

  predicate Downloadable(env: Env, a: Id) {
    Main(env.details(a)).Some?
  }

  /** Assets that stay known: still in the album, their files still in the folder. */
  function Kept(s: Snapshot): set<Id> {
    s.assetMap.Keys * s.album - s.DeletedLocal()
  }

  /** New assets are taken as known together, if any of them could be downloaded. */
  ghost function Learned(s: Snapshot, env: Env): set<Id> {
    if exists a :: a in s.NewRemote() && Downloadable(env, a) then s.NewRemote() else {}
  }

  function Uploaded(s: Snapshot, env: Env): (r: set<Id>)
    ensures forall f :: f in s.NewLocal(env) ==> env.guid(f) in r
    ensures forall a :: a in r ==> exists f :: f in s.NewLocal(env) && env.guid(f) == a
  {
    set f | f in s.NewLocal(env) :: env.guid(f)
  }

  /** Files removed because their assets left the album. */
  predicate Removed(s: Snapshot, env: Env, f: Name) {
    f in s.files && f !in env.locked && exists a :: a in s.DeletedRemote() && s.assetMap[a] == f
  }

  predicate Fetched(s: Snapshot, env: Env, f: Name) {
    exists a :: a in s.NewRemote() && Downloadable(env, a) && env.details(a).filename == f
  }

  /** `t` is what a successful sync makes of `s`. */
  ghost predicate SyncOf(s: Snapshot, env: Env, t: Snapshot) {
    && t.album == s.album - (s.DeletedLocal() - env.undeletable) + Uploaded(s, env)
    && (forall f :: f in t.files <==> (f in s.files && !Removed(s, env, f)) || Fetched(s, env, f))
    && t.assetMap.Keys == Kept(s) + Learned(s, env) + Uploaded(s, env)
    && (forall a :: a in Kept(s) ==> t.assetMap[a] == s.assetMap[a])
    && (forall a :: a in Learned(s, env) ==> t.assetMap[a] == env.details(a).filename)
    && (forall f :: f in s.NewLocal(env) ==> t.assetMap[env.guid(f)] == f)
  }

  /** A successful sync leaves the map injective. */
  lemma StaysInjective(s: Snapshot, env: Env, t: Snapshot)
    requires Nice(s, env) && SyncOf(s, env, t)
    ensures Injective(t.assetMap)
  {
    forall a, b | a in t.assetMap && b in t.assetMap && t.assetMap[a] == t.assetMap[b]
      ensures a == b
    {
      NameOf(s, env, t, a);
      NameOf(s, env, t, b);
    }
  }

  /** Where the name of a known asset comes from. */
  lemma NameOf(s: Snapshot, env: Env, t: Snapshot, a: Id)
    requires Nice(s, env) && SyncOf(s, env, t) && a in t.assetMap
    ensures var f := t.assetMap[a];
      || (a in Kept(s) && f == s.assetMap[a] && f in s.files && a !in s.NewRemote())
      || (a in s.NewRemote() && f == env.details(a).filename && f !in s.files)
      || (f in s.NewLocal(env) && a == env.guid(f) && a !in s.album && a !in s.assetMap)
  {
    if a in Uploaded(s, env) {
      var f :| f in s.NewLocal(env) && env.guid(f) == a;
    }
  }

  /** Nothing stands in the way of the deltas. */
  ghost predicate Unhindered(s: Snapshot, env: Env) {
    && (forall a :: a in s.NewRemote() ==> Downloadable(env, a))
    && (forall a :: a in s.DeletedLocal() && a in s.album ==> a !in env.undeletable)
    && (forall a :: a in s.DeletedRemote() && s.assetMap[a] in s.files ==> s.assetMap[a] !in env.locked)
  }

  lemma LearnedAll(s: Snapshot, env: Env, t: Snapshot)
    requires Nice(s, env) && SyncOf(s, env, t)
    ensures t.NewRemote() == {}
       <==> (s.NewRemote() == {} || exists a :: a in s.NewRemote() && Downloadable(env, a))
            && (forall a :: a in s.DeletedLocal() && a in s.album ==> a !in env.undeletable)
  {
    if a :| a in s.DeletedLocal() && a in s.album && a in env.undeletable {
      assert a in t.NewRemote();
    }
    if s.NewRemote() != {} && Learned(s, env) == {} {
      var a :| a in s.NewRemote();
      assert a in t.NewRemote();
    }
  }

  lemma NothingLeft(s: Snapshot, env: Env, t: Snapshot)
    requires Nice(s, env) && SyncOf(s, env, t)
    ensures t.DeletedRemote() == {}
  {
    forall a | a in t.assetMap ensures a in t.album {
      NameOf(s, env, t, a);
    }
  }

  lemma PresentFile(s: Snapshot, env: Env, t: Snapshot, a: Id)
    requires Nice(s, env) && SyncOf(s, env, t) && a in t.assetMap
    ensures t.assetMap[a] in t.files <==> a !in Learned(s, env) || Downloadable(env, a)
  {
    NameOf(s, env, t, a);
    var f := t.assetMap[a];
    if a in Kept(s) {
      assert !Removed(s, env, f);
    } else if a in Learned(s, env) {
      assert Fetched(s, env, f) <==> Downloadable(env, a);
    } else {
      assert !Removed(s, env, f);
    }
  }

  lemma AllPresent(s: Snapshot, env: Env, t: Snapshot)
    requires Nice(s, env) && SyncOf(s, env, t)
    ensures t.DeletedLocal() == {} <==> forall a :: a in Learned(s, env) ==> Downloadable(env, a)
  {
    forall a | a in t.assetMap
      ensures a in t.DeletedLocal() <==> a in Learned(s, env) && !Downloadable(env, a)
    {
      PresentFile(s, env, t, a);
    }
  }

  /** A file that nobody wanted removed is known after the sync. */
  lemma KnownFile(s: Snapshot, env: Env, t: Snapshot, f: Name)
    requires Nice(s, env) && SyncOf(s, env, t) && f in t.files
    requires f in s.files ==> forall a :: a in s.DeletedRemote() ==> s.assetMap[a] != f
    ensures exists a :: a in t.assetMap && t.assetMap[a] == f
  {
    if f !in s.files {
      var a :| a in s.NewRemote() && Downloadable(env, a) && env.details(a).filename == f;
      assert a in Learned(s, env);
    } else if f in s.NewLocal(env) {
      assert t.assetMap[env.guid(f)] == f;
    } else {
      var a :| a in s.assetMap && s.assetMap[a] == f;
      assert a in Kept(s);
    }
  }

  lemma UnknownFile(s: Snapshot, env: Env, t: Snapshot, a: Id)
    requires Nice(s, env) && SyncOf(s, env, t) && t.NewRemote() == {}
    requires a in s.DeletedRemote() && s.assetMap[a] in s.files && s.assetMap[a] in env.locked
    ensures s.assetMap[a] in t.NewLocal(env)
  {
    var f := s.assetMap[a];
    assert f in t.files;
    forall b | b in t.assetMap ensures t.assetMap[b] != f {
      NameOf(s, env, t, b);
    }
  }

  lemma AllKnown(s: Snapshot, env: Env, t: Snapshot)
    requires Nice(s, env) && SyncOf(s, env, t) && t.NewRemote() == {}
    ensures t.NewLocal(env) == {}
       <==> forall a :: a in s.DeletedRemote() && s.assetMap[a] in s.files ==> s.assetMap[a] !in env.locked
  {
    if a :| a in s.DeletedRemote() && s.assetMap[a] in s.files && s.assetMap[a] in env.locked {
      UnknownFile(s, env, t, a);
    } else {
      forall f | f in t.files ensures f !in t.NewLocal(env) {
        if f !in s.files || !(exists a :: a in s.DeletedRemote() && s.assetMap[a] == f) {
          KnownFile(s, env, t, f);
        }
      }
    }
  }

  /**
   One pass converges: after a successful sync in a quiet moment the deltas are empty, exactly
   if every new asset has a file to download, the server deletes what it is asked to and the
   file system too.
   */
  lemma Converges(s: Snapshot, env: Env, t: Snapshot)
    requires Nice(s, env) && SyncOf(s, env, t)
    ensures !t.HasChanges(env) <==> Unhindered(s, env)
  {
    LearnedAll(s, env, t);
    NothingLeft(s, env, t);
    AllPresent(s, env, t);
    if t.NewRemote() == {} {
      AllKnown(s, env, t);
    }
  }

  /**
   An asset without a file to download is taken as known if it comes with one that has; so the next sync
   takes its file for deleted and deletes the asset from the album.
   */
  lemma UndownloadableIsDeleted(s: Snapshot, env: Env, t: Snapshot, a: Id, b: Id)
    requires Nice(s, env) && SyncOf(s, env, t)
    requires a in s.NewRemote() && Downloadable(env, a) && b in s.NewRemote() && !Downloadable(env, b)
    ensures b in t.album && b in t.DeletedLocal()
  {
    NameOf(s, env, t, b);
    assert !Fetched(s, env, env.details(b).filename);
  }

  /** One sync of many: what its surroundings were, and what it found and left. */
  datatype Round = Round(env: Env, before: Snapshot, after: Snapshot) {
    ghost predicate Succeeded() {
      Fresh(before, env) && SyncOf(before, env, after)
    }
  }

  /** Syncs that succeed, with fresh names and GUIDs each; between two of them album, folder and surroundings may change at will. */
  ghost predicate Syncs(rounds: seq<Round>) {
    && (forall k :: 0 <= k < |rounds| ==> rounds[k].Succeeded())
    && (forall k :: 0 < k < |rounds| ==> rounds[k].before.assetMap == rounds[k - 1].after.assetMap)
  }

  lemma {:induction false} ManyInjective(rounds: seq<Round>, k: nat)
    requires Syncs(rounds) && k < |rounds| && Injective(rounds[0].before.assetMap)
    ensures Injective(rounds[k].before.assetMap)
    decreases k
  {
    if k > 0 {
      ManyInjective(rounds, k - 1);
      assert rounds[k - 1].Succeeded();
      StaysInjective(rounds[k - 1].before, rounds[k - 1].env, rounds[k - 1].after);
    }
  }

  /** Over any number of syncs the map stays injective, and each of them converges exactly if it is unhindered. */
  lemma ManySyncs(rounds: seq<Round>, k: nat)
    requires Syncs(rounds) && k < |rounds| && Injective(rounds[0].before.assetMap)
    ensures Injective(rounds[k].after.assetMap)
    ensures !rounds[k].after.HasChanges(rounds[k].env) <==> Unhindered(rounds[k].before, rounds[k].env)
  {
    ManyInjective(rounds, k);
    assert rounds[k].Succeeded();
    StaysInjective(rounds[k].before, rounds[k].env, rounds[k].after);
    Converges(rounds[k].before, rounds[k].env, rounds[k].after);
  }

  // ----- when a sync succeeds -----

  /** The folder after the local deletions. */
  ghost function FilesLeft(s: Snapshot, env: Env): set<Name> {
    set f | f in s.files && !Removed(s, env, f)
  }

  /** Nothing that the sync comes to fails. */
  ghost predicate Succeeds(s: Snapshot, env: Env) {
    s.HasChanges(env) ==>
      && (s.DeletedLocal() != {} ==> env.faults.delete.Works?)
      && (forall a :: a in s.DeletedRemote() && a !in s.DeletedLocal() ==> s.assetMap[a] !in env.faults.unseen)
      && (forall a :: a in s.NewRemote() && Downloadable(env, a) ==> Creatable(FilesLeft(s, env), env, env.details(a).filename))
      && (forall a :: a in s.NewRemote() && Downloadable(env, a) && env.details(a).filename !in env.uncreatable
            ==> !env.faults.download)
      && (forall f :: f in s.NewLocal(env) ==> f !in env.faults.unpackable)
      && (s.NewLocal(env) != {} ==> env.faults.create.Works?)
  }

  /** The file can be created, or it is seen to be there. */
  predicate Creatable(files: set<Name>, env: Env, name: Name) {
    name in env.uncreatable ==> name in files && name !in env.faults.unseen
  }

  // ----- the sync, step by step -----

  predicate Dropped(m: map<Id, Name>, deleted: seq<Id>, k: nat, f: Name)
    requires k <= |deleted|
  {
    exists i :: 0 <= i < k && deleted[i] in m && m[deleted[i]] == f
  }

  /** The map and the files after the local deletions for the first `k` assets. */
  ghost predicate AfterRemoval(m: map<Id, Name>, files: set<Name>, locked: set<Name>, deleted: seq<Id>, k: nat,
                               m': map<Id, Name>, files': set<Name>)
    requires k <= |deleted|
  {
    && (forall a :: a in m' <==> a in m && !(a in deleted[..k] && m[a] in files))
    && (forall a :: a in m' ==> m'[a] == m[a])
    && (forall f :: f in files' <==> f in files && (f in locked || !Dropped(m, deleted, k, f)))
  }

  lemma NextRemoval(m: map<Id, Name>, files: set<Name>, locked: set<Name>, deleted: seq<Id>, k: nat,
                    m': map<Id, Name>, files': set<Name>)
    requires Injective(m) && k < |deleted| && AfterRemoval(m, files, locked, deleted, k, m', files')
    ensures var a := deleted[k];
      if a in m' && m'[a] in files' then
        AfterRemoval(m, files, locked, deleted, k + 1, m' - {a}, if m'[a] in locked then files' else files' - {m'[a]})
      else AfterRemoval(m, files, locked, deleted, k + 1, m', files')
  {
    var a := deleted[k];
    assert deleted[..k + 1] == deleted[..k] + [a];
    forall f ensures Dropped(m, deleted, k + 1, f) <==> Dropped(m, deleted, k, f) || (a in m && m[a] == f) {
    }
  }

  /** The files after the local deletions, whatever the map. */
  ghost predicate FilesAfterRemoval(m: map<Id, Name>, files: set<Name>, locked: set<Name>, deleted: seq<Id>, k: nat,
                                    m': map<Id, Name>, files': set<Name>)
    requires k <= |deleted|
  {
    && (forall a :: a in m' ==> a in m && m'[a] == m[a])
    && (forall a :: a in m && a !in m' ==> a in deleted[..k])
    && (forall f :: f in files' <==> f in files && (f in locked || !Dropped(m, deleted, k, f)))
  }

  lemma NextFilesRemoval(m: map<Id, Name>, files: set<Name>, locked: set<Name>, deleted: seq<Id>, k: nat,
                         m': map<Id, Name>, files': set<Name>)
    requires k < |deleted| && FilesAfterRemoval(m, files, locked, deleted, k, m', files')
    ensures var a := deleted[k];
      if a in m' && m'[a] in files' then
        FilesAfterRemoval(m, files, locked, deleted, k + 1, m' - {a}, if m'[a] in locked then files' else files' - {m'[a]})
      else FilesAfterRemoval(m, files, locked, deleted, k + 1, m', files')
  {
    var a := deleted[k];
    assert deleted[..k + 1] == deleted[..k] + [a];
    forall f ensures Dropped(m, deleted, k + 1, f) <==> Dropped(m, deleted, k, f) || (a in m && m[a] == f) {
    }
    if a in m && a !in m' {
      assert Dropped(m, deleted, k, m[a]);
    }
  }

  /** The presence of every file to be removed can be told. */
  predicate AllSeen(m: map<Id, Name>, unseen: set<Name>, deleted: seq<Id>, k: nat)
    requires k <= |deleted|
  {
    forall i :: 0 <= i < k && deleted[i] in m ==> m[deleted[i]] !in unseen
  }

  /** `f` is the name of a file to download for one of the first `k` assets. */
  predicate Listed(env: Env, assets: seq<Id>, k: nat, f: Name)
    requires k <= |assets|
  {
    exists i :: 0 <= i < k && Downloadable(env, assets[i]) && env.details(assets[i]).filename == f
  }

  predicate AnyListed(env: Env, assets: seq<Id>, k: nat)
    requires k <= |assets|
  {
    exists i :: 0 <= i < k && Downloadable(env, assets[i])
  }

  ghost predicate NewNames(files: set<Name>, env: Env, assets: seq<Id>) {
    && (forall i :: 0 <= i < |assets| ==> env.details(assets[i]).filename !in files)
    && (forall i, j | 0 <= i < |assets| && 0 <= j < |assets| ::
          env.details(assets[i]).filename == env.details(assets[j]).filename ==> assets[i] == assets[j])
  }

  /** `m'` is `m` with the first `k` assets under their file names. */
  ghost predicate Named(m: map<Id, Name>, env: Env, assets: seq<Id>, k: nat, m': map<Id, Name>)
    requires k <= |assets|
  {
    forall a :: (a in m' <==> a in m || a in assets[..k])
      && (a in m' ==> m'[a] == if a in assets[..k] then env.details(a).filename else m[a])
  }

  lemma NextNamed(m: map<Id, Name>, env: Env, assets: seq<Id>, k: nat, m': map<Id, Name>)
    requires k < |assets| && Named(m, env, assets, k, m')
    ensures Named(m, env, assets, k + 1, m'[assets[k] := env.details(assets[k]).filename])
  {
    assert assets[..k + 1] == assets[..k] + [assets[k]];
  }

  /** The files after those for the first `k` assets have been created. */
  ghost predicate Created(files: set<Name>, env: Env, assets: seq<Id>, k: nat, files': set<Name>)
    requires k <= |assets|
  {
    forall f :: f in files' <==> f in files || Listed(env, assets, k, f)
  }

  /** The asset cannot be downloaded because its file cannot be created again. */
  predicate Stuck(env: Env, assets: seq<Id>, k: nat, a: Id)
    requires k <= |assets|
  {
    a in assets[..k] && Downloadable(env, a) && env.details(a).filename in env.uncreatable
  }

  /** `m'` is `m` with the assets that are stuck under their file names. */
  ghost predicate Marked(m: map<Id, Name>, env: Env, assets: seq<Id>, k: nat, m': map<Id, Name>)
    requires k <= |assets|
  {
    forall a :: (a in m' <==> a in m || Stuck(env, assets, k, a))
      && (a in m' ==> m'[a] == if Stuck(env, assets, k, a) then env.details(a).filename else m[a])
  }

  /** Every file can be created or is there. */
  predicate AllCreatable(files: set<Name>, env: Env, assets: seq<Id>, k: nat)
    requires k <= |assets|
  {
    forall i :: 0 <= i < k && Downloadable(env, assets[i]) ==> Creatable(files, env, env.details(assets[i]).filename)
  }

  predicate AnyCreated(env: Env, assets: seq<Id>, k: nat)
    requires k <= |assets|
  {
    exists i :: 0 <= i < k && Downloadable(env, assets[i]) && env.details(assets[i]).filename !in env.uncreatable
  }

  lemma NextCreated(files: set<Name>, env: Env, assets: seq<Id>, k: nat, files': set<Name>)
    requires k < |assets| && AllCreatable(files, env, assets, k) && Created(files, env, assets, k, files')
    ensures var name := env.details(assets[k]).filename;
      && (name in env.uncreatable ==> (name in files' <==> name in files))
      && (AllCreatable(files, env, assets, k + 1) <==> Downloadable(env, assets[k]) ==> Creatable(files, env, name))
      && (if !Downloadable(env, assets[k]) || (name in env.uncreatable && name in files')
          then Created(files, env, assets, k + 1, files')
          else Created(files, env, assets, k + 1, files' + {name}))
      && (AnyCreated(env, assets, k + 1)
          <==> AnyCreated(env, assets, k) || (Downloadable(env, assets[k]) && name !in env.uncreatable))
  {
    var name := env.details(assets[k]).filename;
    forall f ensures Listed(env, assets, k + 1, f)
      <==> Listed(env, assets, k, f) || (Downloadable(env, assets[k]) && f == name)
    {
    }
  }

  lemma NextMarked(m: map<Id, Name>, env: Env, assets: seq<Id>, k: nat, m': map<Id, Name>)
    requires k < |assets| && Marked(m, env, assets, k, m')
    ensures var a := assets[k];
      if Downloadable(env, a) && env.details(a).filename in env.uncreatable
      then Marked(m, env, assets, k + 1, m'[a := env.details(a).filename])
      else Marked(m, env, assets, k + 1, m')
  {
    assert assets[..k + 1] == assets[..k] + [assets[k]];
    forall a ensures Stuck(env, assets, k + 1, a)
      <==> Stuck(env, assets, k, a)
           || (a == assets[k] && Downloadable(env, a) && env.details(a).filename in env.uncreatable)
    {
    }
  }

  /** The first `k` new assets have had their files created, or are stuck. */
  ghost predicate Creating(m: map<Id, Name>, files: set<Name>, env: Env, assets: seq<Id>, k: nat,
                           m': map<Id, Name>, files': set<Name>)
    requires k <= |assets|
  {
    AllCreatable(files, env, assets, k) && Created(files, env, assets, k, files') && Marked(m, env, assets, k, m')
  }

  lemma NextCreating(m: map<Id, Name>, files: set<Name>, env: Env, assets: seq<Id>, k: nat,
                     m': map<Id, Name>, files': set<Name>)
    requires k < |assets| && Creating(m, files, env, assets, k, m', files')
    ensures var name := env.details(assets[k]).filename;
      && (AllCreatable(files, env, assets, |assets|) ==> Downloadable(env, assets[k]) ==> Creatable(files, env, name))
      && (name in env.uncreatable ==> (name in files' <==> name in files))
      && (AnyCreated(env, assets, k + 1)
          <==> AnyCreated(env, assets, k) || (Downloadable(env, assets[k]) && name !in env.uncreatable))
      && (if !Downloadable(env, assets[k]) then Creating(m, files, env, assets, k + 1, m', files')
          else if name !in env.uncreatable then Creating(m, files, env, assets, k + 1, m', files' + {name})
          else Creatable(files, env, name) ==> Creating(m, files, env, assets, k + 1, m'[assets[k] := name], files'))
  {
    NextCreated(files, env, assets, k, files');
    NextMarked(m, env, assets, k, m');
  }

  lemma MarkedThenNamed(m: map<Id, Name>, env: Env, assets: seq<Id>, m1: map<Id, Name>, m2: map<Id, Name>)
    requires Marked(m, env, assets, |assets|, m1) && Named(m1, env, assets, |assets|, m2)
    ensures Named(m, env, assets, |assets|, m2)
  {
    assert assets[..|assets|] == assets;
  }

  /** The map and the files after the downloads: all new assets are known, or only those that are stuck. */
  ghost predicate AfterDownload(m: map<Id, Name>, files: set<Name>, env: Env, assets: seq<Id>,
                                m': map<Id, Name>, files': set<Name>)
  {
    && Created(files, env, assets, |assets|, files')
    && (if AnyCreated(env, assets, |assets|) then Named(m, env, assets, |assets|, m')
        else Marked(m, env, assets, |assets|, m'))
  }

  /** With new names nothing is stuck. */
  lemma NothingStuck(m: map<Id, Name>, files: set<Name>, env: Env, assets: seq<Id>, k: nat, m': map<Id, Name>)
    requires k <= |assets| && NewNames(files, env, assets) && AllCreatable(files, env, assets, k)
    ensures AnyCreated(env, assets, k) <==> AnyListed(env, assets, k)
    ensures Marked(m, env, assets, k, m') ==> m' == m
  {
    forall i | 0 <= i < k && Downloadable(env, assets[i])
      ensures env.details(assets[i]).filename !in env.uncreatable
    {
      assert Creatable(files, env, env.details(assets[i]).filename);
    }
    forall a ensures !Stuck(env, assets, k, a) {
    }
  }

  ghost predicate OwnGuids(env: Env, names: seq<Name>) {
    forall i, j | 0 <= i < |names| && 0 <= j < |names| :: env.guid(names[i]) == env.guid(names[j]) ==> names[i] == names[j]
  }

  /** `a` is the GUID of one of the first `k` files to upload. */
  predicate Pending(env: Env, names: seq<Name>, k: nat, a: Id)
    requires k <= |names|
  {
    exists i :: 0 <= i < k && env.guid(names[i]) == a
  }

  /** The assets known once the first `k` local files are; the others keep their names. */
  ghost predicate KnownAfterUpload(m: map<Id, Name>, env: Env, names: seq<Name>, k: nat, m': map<Id, Name>)
    requires k <= |names|
  {
    && (forall a :: a in m' <==> a in m || Pending(env, names, k, a))
    && (forall a :: a in m && !Pending(env, names, k, a) ==> m'[a] == m[a])
  }

  /** The first `k` local files are known under their GUIDs. */
  ghost predicate UnderGuids(env: Env, names: seq<Name>, k: nat, m: map<Id, Name>)
    requires k <= |names|
  {
    forall i :: 0 <= i < k ==> env.guid(names[i]) in m && m[env.guid(names[i])] == names[i]
  }

  lemma NextUnder(env: Env, names: seq<Name>, k: nat, m: map<Id, Name>)
    requires k < |names| && OwnGuids(env, names) && UnderGuids(env, names, k, m)
    ensures UnderGuids(env, names, k + 1, m[env.guid(names[k]) := names[k]])
  {
  }

  ghost predicate AfterUpload(m: map<Id, Name>, env: Env, names: seq<Name>, k: nat, m': map<Id, Name>)
    requires k <= |names|
  {
    KnownAfterUpload(m, env, names, k, m') && UnderGuids(env, names, k, m')
  }

  predicate Packable(env: Env, names: seq<Name>, k: nat)
    requires k <= |names|
  {
    forall i :: 0 <= i < k ==> names[i] !in env.faults.unpackable
  }

  lemma GuidsPending(env: Env, names: seq<Name>, guids: seq<Id>)
    requires |guids| == |names| && forall i :: 0 <= i < |names| ==> guids[i] == env.guid(names[i])
    ensures forall a :: a in guids <==> Pending(env, names, |names|, a)
  {
    forall a ensures a in guids <==> Pending(env, names, |names|, a) {
      if i :| 0 <= i < |names| && env.guid(names[i]) == a {
        assert guids[i] in guids;
      }
    }
  }

  lemma NextKnown(m: map<Id, Name>, env: Env, names: seq<Name>, k: nat, m': map<Id, Name>)
    requires k < |names| && KnownAfterUpload(m, env, names, k, m')
    ensures KnownAfterUpload(m, env, names, k + 1, m'[env.guid(names[k]) := names[k]])
  {
    forall a ensures Pending(env, names, k + 1, a) <==> Pending(env, names, k, a) || env.guid(names[k]) == a {
    }
  }

  // ----- the steps together -----

  /** The map once the remote deletions are done. */
  function Retained(m: map<Id, Name>, deleted: seq<Id>): map<Id, Name> {
    map a | a in m && a !in deleted :: m[a]
  }

  lemma MapAfterRemoval(s: Snapshot, env: Env, deltas: DeltaState, m: map<Id, Name>, files: set<Name>)
    requires Nice(s, env) && deltas.Of(s, env)
    requires AfterRemoval(Retained(s.assetMap, deltas.deletedLocal), s.files, env.locked,
                          deltas.deletedRemote, |deltas.deletedRemote|, m, files)
    ensures m.Keys == Kept(s) && forall a :: a in m ==> m[a] == s.assetMap[a]
    ensures forall f :: f in files <==> f in s.files && !Removed(s, env, f)
  {
    var m1, ds := Retained(s.assetMap, deltas.deletedLocal), deltas.deletedRemote;
    assert ds[..|ds|] == ds;
    forall a ensures a in m <==> a in Kept(s) {
    }
    forall f | f in s.files
      ensures Dropped(m1, ds, |ds|, f) <==> exists a :: a in s.DeletedRemote() && s.assetMap[a] == f
    {
      if a :| a in s.DeletedRemote() && s.assetMap[a] == f {
        assert a in m1 && a in ds;
      }
    }
  }

  lemma FilesAfterDownload(s: Snapshot, env: Env, deltas: DeltaState)
    requires deltas.Of(s, env)
    ensures forall f :: Listed(env, deltas.newRemote, |deltas.newRemote|, f) <==> Fetched(s, env, f)
    ensures Learned(s, env) == if AnyListed(env, deltas.newRemote, |deltas.newRemote|) then s.NewRemote() else {}
  {
    var nr := deltas.newRemote;
    forall f ensures Listed(env, nr, |nr|, f) <==> Fetched(s, env, f) {
      if a :| a in s.NewRemote() && Downloadable(env, a) && env.details(a).filename == f {
        assert a in nr;
      }
    }
    if a :| a in s.NewRemote() && Downloadable(env, a) {
      assert a in nr;
    }
  }

  lemma AllUploaded(s: Snapshot, env: Env, deltas: DeltaState)
    requires deltas.Of(s, env)
    ensures forall a :: Pending(env, deltas.newLocal, |deltas.newLocal|, a) <==> a in Uploaded(s, env)
  {
    forall a ensures Pending(env, deltas.newLocal, |deltas.newLocal|, a) <==> a in Uploaded(s, env) {
      if a in Uploaded(s, env) {
        var f :| f in s.NewLocal(env) && env.guid(f) == a;
        assert f in deltas.newLocal;
      }
    }
  }

  lemma MapAfterDownload(s: Snapshot, env: Env, deltas: DeltaState, m2: map<Id, Name>, m3: map<Id, Name>)
    requires deltas.Of(s, env) && m2.Keys == Kept(s)
    requires var nr := deltas.newRemote;
      if AnyListed(env, nr, |nr|) then Named(m2, env, nr, |nr|, m3) else m3 == m2
    ensures m3.Keys == Kept(s) + Learned(s, env)
    ensures forall a :: a in Kept(s) ==> m3[a] == m2[a]
    ensures forall a :: a in Learned(s, env) ==> m3[a] == env.details(a).filename
  {
    var nr := deltas.newRemote;
    assert nr[..|nr|] == nr;
    FilesAfterDownload(s, env, deltas);
    forall a ensures a in m3.Keys <==> a in Kept(s) + Learned(s, env) {
    }
  }

  lemma NoChangesIsSync(s: Snapshot, env: Env, deltas: DeltaState)
    requires deltas.Of(s, env) && !deltas.HasChanges()
    ensures SyncOf(s, env, s)
  {
    forall a ensures a !in s.NewRemote() && a !in s.DeletedRemote() && a !in s.DeletedLocal() {
      assert a !in deltas.newRemote && a !in deltas.deletedRemote && a !in deltas.deletedLocal;
    }
    forall f ensures f !in s.NewLocal(env) {
      assert f !in deltas.newLocal;
    }
    forall a ensures a in Kept(s) + Learned(s, env) + Uploaded(s, env) <==> a in s.assetMap.Keys {
    }
    forall f ensures !Removed(s, env, f) && !Fetched(s, env, f) {
    }
  }

  lemma MapAfterUpload(s: Snapshot, env: Env, deltas: DeltaState, m3: map<Id, Name>, m4: map<Id, Name>)
    requires Nice(s, env) && deltas.Of(s, env) && m3.Keys == Kept(s) + Learned(s, env)
    requires AfterUpload(m3, env, deltas.newLocal, |deltas.newLocal|, m4)
    ensures m4.Keys == m3.Keys + Uploaded(s, env)
    ensures forall a :: a in m3 ==> m4[a] == m3[a]
    ensures forall f :: f in s.NewLocal(env) ==> m4[env.guid(f)] == f
  {
    AllUploaded(s, env, deltas);
    forall a ensures a in m4.Keys <==> a in m3.Keys + Uploaded(s, env) {
    }
    forall a | a in m3 ensures m4[a] == m3[a] {
      assert a !in Uploaded(s, env);
    }
    forall f | f in s.NewLocal(env) ensures env.guid(f) in m4 && m4[env.guid(f)] == f {
      var i :| 0 <= i < |deltas.newLocal| && deltas.newLocal[i] == f;
    }
  }

  lemma NiceSteps(s: Snapshot, env: Env, deltas: DeltaState)
    requires Nice(s, env) && deltas.Of(s, env)
    ensures Injective(Retained(s.assetMap, deltas.deletedLocal))
    ensures NewNames(s.files, env, deltas.newRemote) && OwnGuids(env, deltas.newLocal)
  {
    forall i, j | 0 <= i < |deltas.newRemote| && 0 <= j < |deltas.newRemote|
        && env.details(deltas.newRemote[i]).filename == env.details(deltas.newRemote[j]).filename
      ensures deltas.newRemote[i] == deltas.newRemote[j]
    {
      assert deltas.newRemote[i] in s.NewRemote() && deltas.newRemote[j] in s.NewRemote();
    }
    forall i, j | 0 <= i < |deltas.newLocal| && 0 <= j < |deltas.newLocal|
        && env.guid(deltas.newLocal[i]) == env.guid(deltas.newLocal[j])
      ensures deltas.newLocal[i] == deltas.newLocal[j]
    {
      assert deltas.newLocal[i] in s.NewLocal(env) && deltas.newLocal[j] in s.NewLocal(env);
    }
    forall i | 0 <= i < |deltas.newRemote| ensures env.details(deltas.newRemote[i]).filename !in s.files {
      assert deltas.newRemote[i] in s.NewRemote();
    }
  }

  /** The map is injective after the downloads, so a failure there or in the upload leaves it so. */
  lemma InjectiveAfterDownload(s: Snapshot, env: Env, deltas: DeltaState,
                               m2: map<Id, Name>, files2: set<Name>, m3: map<Id, Name>, files3: set<Name>)
    requires Nice(s, env) && deltas.Of(s, env)
    requires AfterRemoval(Retained(s.assetMap, deltas.deletedLocal), s.files, env.locked,
                          deltas.deletedRemote, |deltas.deletedRemote|, m2, files2)
    requires AfterDownload(m2, files2, env, deltas.newRemote, m3, files3)
    requires AllCreatable(files2, env, deltas.newRemote, |deltas.newRemote|)
    ensures Injective(m3)
  {
    MapAfterRemoval(s, env, deltas, m2, files2);
    NiceSteps(s, env, deltas);
    NothingStuck(m2, files2, env, deltas.newRemote, |deltas.newRemote|, m3);
    MapAfterDownload(s, env, deltas, m2, m3);
  }

  /** What the four steps leave, one after the other, is what `SyncOf` says. */
  lemma Together(s: Snapshot, env: Env, deltas: DeltaState,
                 m2: map<Id, Name>, files2: set<Name>, m3: map<Id, Name>, t: Snapshot)
    requires Nice(s, env) && deltas.Of(s, env)
    requires AfterRemoval(Retained(s.assetMap, deltas.deletedLocal), s.files, env.locked,
                          deltas.deletedRemote, |deltas.deletedRemote|, m2, files2)
    requires AfterDownload(m2, files2, env, deltas.newRemote, m3, t.files)
    requires AllCreatable(files2, env, deltas.newRemote, |deltas.newRemote|)
    requires AfterUpload(m3, env, deltas.newLocal, |deltas.newLocal|, t.assetMap)
    requires forall a :: a in t.album <==>
      a in s.album - (s.DeletedLocal() - env.undeletable) || Pending(env, deltas.newLocal, |deltas.newLocal|, a)
    ensures SyncOf(s, env, t)
  {
    MapAfterRemoval(s, env, deltas, m2, files2);
    NiceSteps(s, env, deltas);
    NothingStuck(m2, files2, env, deltas.newRemote, |deltas.newRemote|, m3);
    MapAfterDownload(s, env, deltas, m2, m3);
    FilesAfterDownload(s, env, deltas);
    MapAfterUpload(s, env, deltas, m3, t.assetMap);
    AllUploaded(s, env, deltas);
  }

  // ----- when the steps succeed -----

  /** The folder once the local deletions are done. */
  ghost function LeftAfter(m: map<Id, Name>, files: set<Name>, locked: set<Name>, deleted: seq<Id>): set<Name> {
    set f | f in files && (f in locked || !Dropped(m, deleted, |deleted|, f))
  }

  /** What the deltas, wherever they come from, ask for does not fail. */
  ghost predicate StepsSucceed(m: map<Id, Name>, files: set<Name>, env: Env, deltas: DeltaState) {
    deltas.HasChanges() ==>
      var m1 := Retained(m, deltas.deletedLocal);
      && (deltas.deletedLocal != [] ==> env.faults.delete.Works?)
      && AllSeen(m1, env.faults.unseen, deltas.deletedRemote, |deltas.deletedRemote|)
      && AllCreatable(LeftAfter(m1, files, env.locked, deltas.deletedRemote), env, deltas.newRemote, |deltas.newRemote|)
      && (AnyCreated(env, deltas.newRemote, |deltas.newRemote|) ==> !env.faults.download)
      && Packable(env, deltas.newLocal, |deltas.newLocal|)
      && (deltas.newLocal != [] ==> env.faults.create.Works?)
  }

  lemma LeftIsFilesLeft(s: Snapshot, env: Env, deltas: DeltaState)
    requires deltas.Of(s, env)
    ensures LeftAfter(Retained(s.assetMap, deltas.deletedLocal), s.files, env.locked, deltas.deletedRemote) == FilesLeft(s, env)
  {
    var m1, ds := Retained(s.assetMap, deltas.deletedLocal), deltas.deletedRemote;
    forall f | f in s.files
      ensures Dropped(m1, ds, |ds|, f) <==> exists a :: a in s.DeletedRemote() && s.assetMap[a] == f
    {
      if a :| a in s.DeletedRemote() && s.assetMap[a] == f {
        assert a in m1 && a in ds;
      }
    }
  }

  lemma DownloadsOf(s: Snapshot, env: Env, deltas: DeltaState, files: set<Name>)
    requires deltas.Of(s, env)
    ensures AllCreatable(files, env, deltas.newRemote, |deltas.newRemote|)
      <==> forall a :: a in s.NewRemote() && Downloadable(env, a) ==> Creatable(files, env, env.details(a).filename)
    ensures AnyCreated(env, deltas.newRemote, |deltas.newRemote|)
      <==> exists a :: a in s.NewRemote() && Downloadable(env, a) && env.details(a).filename !in env.uncreatable
  {
    var nr := deltas.newRemote;
    assert forall i :: 0 <= i < |nr| ==> nr[i] in nr;
    assert forall a :: a in s.NewRemote() ==> a in nr;
  }

  lemma RestOf(s: Snapshot, env: Env, deltas: DeltaState)
    requires deltas.Of(s, env)
    ensures deltas.HasChanges() <==> s.HasChanges(env)
    ensures deltas.deletedLocal != [] <==> s.DeletedLocal() != {}
    ensures deltas.newLocal != [] <==> s.NewLocal(env) != {}
    ensures AllSeen(Retained(s.assetMap, deltas.deletedLocal), env.faults.unseen, deltas.deletedRemote, |deltas.deletedRemote|)
      <==> forall a :: a in s.DeletedRemote() && a !in s.DeletedLocal() ==> s.assetMap[a] !in env.faults.unseen
    ensures Packable(env, deltas.newLocal, |deltas.newLocal|) <==> forall f :: f in s.NewLocal(env) ==> f !in env.faults.unpackable
  {
    Emptiness(deltas.newRemote, s.NewRemote());
    Emptiness(deltas.deletedRemote, s.DeletedRemote());
    Emptiness(deltas.newLocal, s.NewLocal(env));
    Emptiness(deltas.deletedLocal, s.DeletedLocal());
    assert forall i :: 0 <= i < |deltas.deletedRemote| ==> deltas.deletedRemote[i] in deltas.deletedRemote;
    assert forall i :: 0 <= i < |deltas.newLocal| ==> deltas.newLocal[i] in deltas.newLocal;
  }

  lemma Emptiness<T>(list: seq<T>, all: set<T>)
    requires forall x :: x in list <==> x in all
    ensures list != [] <==> all != {}
  {
    if list != [] {
      assert list[0] in all;
    }
  }

  lemma StepsSucceedOf(s: Snapshot, env: Env, deltas: DeltaState)
    requires deltas.Of(s, env)
    ensures StepsSucceed(s.assetMap, s.files, env, deltas) <==> Succeeds(s, env)
  {
    RestOf(s, env, deltas);
    LeftIsFilesLeft(s, env, deltas);
    DownloadsOf(s, env, deltas, FilesLeft(s, env));
  }

  class SyncState {
    const world: World
    var assetMap: map<Id, Name>

    constructor (world: World)
      ensures this.world == world && assetMap == map[]
    {
      this.world := world;
      assetMap := map[];
    }

    function Now(): Snapshot
      reads this, world
    {
      Snapshot(assetMap, world.album, world.files)
    }

    /** None exactly if a request fails. */
    method ComputeDeltas() returns (r: Option<DeltaState>)
      ensures r.Some? <==> !world.env.faults.deltas
      ensures r.Some? ==> r.value.Of(Now(), world.env)
    {
      if world.env.faults.deltas {
        return None;
      }
      var newRemote := Enumerate(Now().NewRemote());
      var deletedRemote := Enumerate(Now().DeletedRemote());
      var newLocal := Enumerate(Now().NewLocal(world.env));
      var deletedLocal := Enumerate(Now().DeletedLocal());
      r := Some(DeltaState(newRemote, deletedRemote, newLocal, deletedLocal));
    }

    /** The deletions to iCloud, which may have been done although the request fails. */
    method RemoveRemote(deleted: seq<Id>) returns (ok: bool)
      modifies this`assetMap, world`album
      ensures ok <==> (deleted != [] ==> world.env.faults.delete.Works?)
      ensures forall a :: a in world.album <==>
        a in old(world.album) && (a in deleted && !world.env.faults.delete.Fails? ==> a in world.env.undeletable)
      ensures assetMap == if ok then Retained(old(assetMap), deleted) else old(assetMap)
    {
      if deleted != [] {
        ok := world.DeleteAsset(deleted);
        if !ok {
          return;
        }
      }
      assetMap := Retained(assetMap, deleted);
      ok := true;
    }

    /** The deletions from iCloud.  Stops where the presence of a file cannot be told. */
    method RemoveLocal(deleted: seq<Id>) returns (ok: bool)
      modifies this`assetMap, world`files
      ensures ok <==> AllSeen(old(assetMap), world.env.faults.unseen, deleted, |deleted|)
      ensures forall f :: f in world.files ==> f in old(world.files)
      ensures forall f :: f in old(world.files) && f !in world.files ==> Dropped(old(assetMap), deleted, |deleted|, f)
      ensures forall a :: a in assetMap ==> a in old(assetMap) && assetMap[a] == old(assetMap)[a]
      ensures ok ==> world.files == LeftAfter(old(assetMap), old(world.files), world.env.locked, deleted)
      ensures ok && Injective(old(assetMap)) ==>
        AfterRemoval(old(assetMap), old(world.files), world.env.locked, deleted, |deleted|, assetMap, world.files)
    {
      ghost var m, files := assetMap, world.files;
      for k := 0 to |deleted|
        invariant FilesAfterRemoval(m, files, world.env.locked, deleted, k, assetMap, world.files)
        invariant AllSeen(m, world.env.faults.unseen, deleted, k)
        invariant Injective(m) ==> AfterRemoval(m, files, world.env.locked, deleted, k, assetMap, world.files)
      {
        var a := deleted[k];
        NextFilesRemoval(m, files, world.env.locked, deleted, k, assetMap, world.files);
        if Injective(m) {
          NextRemoval(m, files, world.env.locked, deleted, k, assetMap, world.files);
        }
        if a in assetMap {
          var present := world.Exists(assetMap[a]);
          if present.None? {
            return false;
          }
          if present.value {
            world.RemoveFile(assetMap[a]);
            assetMap := assetMap - {a};
          }
        } else if a in m {
          SeenBefore(m, world.env.faults.unseen, deleted, k);
        }
      }
      ok := true;
    }

    /**
     Creates the files to download, and counts them; None if one cannot be created and is not there.
     `reached` is how far it comes.
     */
    method CreateFiles(newRemote: seq<Id>) returns (r: Option<nat>, ghost reached: nat)
      modifies this`assetMap, world`files
      ensures r.Some? <==> AllCreatable(old(world.files), world.env, newRemote, |newRemote|)
      ensures reached <= |newRemote| && (r.Some? ==> reached == |newRemote|)
      ensures Creating(old(assetMap), old(world.files), world.env, newRemote, reached, assetMap, world.files)
      ensures r.Some? ==> (r.value > 0 <==> AnyCreated(world.env, newRemote, |newRemote|))
    {
      ghost var m, files := assetMap, world.files;
      var pending := 0;
      reached := 0;
      for k := 0 to |newRemote|
        invariant reached == k && Creating(m, files, world.env, newRemote, k, assetMap, world.files)
        invariant pending > 0 <==> AnyCreated(world.env, newRemote, k)
      {
        NextCreating(m, files, world.env, newRemote, k, assetMap, world.files);
        var details := world.env.details(newRemote[k]);
        if Main(details).Some? {
          var created := world.CreateFile(details.filename);
          if created {
            pending := pending + 1;
          } else {
            var present := world.Exists(details.filename);
            if present != Some(true) {
              return None, k;
            }
            assetMap := assetMap[newRemote[k] := details.filename];
          }
        }
        reached := k + 1;
      }
      r := Some(pending);
    }

    /** The downloads.  After a failure the files `reached` may be there, and with new names the map is as it was. */
    method Download(newRemote: seq<Id>) returns (ok: bool, ghost reached: nat)
      modifies this`assetMap, world`files
      ensures ok <==> AllCreatable(old(world.files), world.env, newRemote, |newRemote|)
                      && (AnyCreated(world.env, newRemote, |newRemote|) ==> !world.env.faults.download)
      ensures old(world.files) <= world.files
      ensures reached <= |newRemote|
      ensures !ok ==> Creating(old(assetMap), old(world.files), world.env, newRemote, reached, assetMap, world.files)
      ensures !ok && NewNames(old(world.files), world.env, newRemote) ==> assetMap == old(assetMap)
      ensures ok ==> AfterDownload(old(assetMap), old(world.files), world.env, newRemote, assetMap, world.files)
    {
      ghost var m, files := assetMap, world.files;
      var pending: Option<nat>;
      pending, reached := CreateFiles(newRemote);
      if NewNames(files, world.env, newRemote) {
        NothingStuck(m, files, world.env, newRemote, reached, assetMap);
      }
      if pending.None? {
        return false, reached;
      }
      if pending.value > 0 {
        if world.env.faults.download {
          return false, reached;
        }
        ghost var m1, files1 := assetMap, world.files;
        for k := 0 to |newRemote|
          invariant world.files == files1
          invariant Named(m1, world.env, newRemote, k, assetMap)
        {
          NextNamed(m1, world.env, newRemote, k, assetMap);
          assetMap := assetMap[newRemote[k] := world.env.details(newRemote[k]).filename];
        }
        MarkedThenNamed(m, world.env, newRemote, m1, assetMap);
      }
      ok := true;
    }

    /** The uploads: all files are packed before the one request, which may fail although it has been done. */
    method Upload(newLocal: seq<Name>) returns (ok: bool)
      modifies this`assetMap, world`album
      ensures ok <==> Packable(world.env, newLocal, |newLocal|) && (newLocal != [] ==> world.env.faults.create.Works?)
      ensures forall a :: a in world.album <==>
        a in old(world.album) || (Packable(world.env, newLocal, |newLocal|) && !world.env.faults.create.Fails?
                                  && Pending(world.env, newLocal, |newLocal|, a))
      ensures !ok ==> assetMap == old(assetMap)
      ensures ok ==> KnownAfterUpload(old(assetMap), world.env, newLocal, |newLocal|, assetMap)
      ensures ok && OwnGuids(world.env, newLocal) ==> UnderGuids(world.env, newLocal, |newLocal|, assetMap)
    {
      ok := PackAll(newLocal);
      if !ok || newLocal == [] {
        return;
      }
      var guid := world.env.guid;
      var guids := seq(|newLocal|, i requires 0 <= i < |newLocal| => guid(newLocal[i]));
      GuidsPending(world.env, newLocal, guids);
      ok := world.CreateAsset(guids);
      if ok {
        Remember(newLocal, guids);
      }
    }

    method PackAll(newLocal: seq<Name>) returns (ok: bool)
      ensures ok <==> Packable(world.env, newLocal, |newLocal|)
    {
      for k := 0 to |newLocal|
        invariant Packable(world.env, newLocal, k)
      {
        if newLocal[k] in world.env.faults.unpackable {
          return false;
        }
      }
      ok := true;
    }

    /** The map learns the uploaded files, one after the other. */
    method Remember(newLocal: seq<Name>, guids: seq<Id>)
      requires |guids| == |newLocal| && forall i :: 0 <= i < |newLocal| ==> guids[i] == world.env.guid(newLocal[i])
      modifies this`assetMap
      ensures KnownAfterUpload(old(assetMap), world.env, newLocal, |newLocal|, assetMap)
      ensures OwnGuids(world.env, newLocal) ==> UnderGuids(world.env, newLocal, |newLocal|, assetMap)
    {
      ghost var m := assetMap;
      for k := 0 to |newLocal|
        invariant KnownAfterUpload(m, world.env, newLocal, k, assetMap)
        invariant OwnGuids(world.env, newLocal) ==> UnderGuids(world.env, newLocal, k, assetMap)
      {
        NextKnown(m, world.env, newLocal, k, assetMap);
        if OwnGuids(world.env, newLocal) {
          NextUnder(world.env, newLocal, k, assetMap);
        }
        assetMap := assetMap[guids[k] := newLocal[k]];
      }
    }

    /** Downloads, then uploads; `fetched` is the map between the two. */
    method Exchange(newRemote: seq<Id>, newLocal: seq<Name>) returns (ok: bool, ghost fetched: map<Id, Name>)
      modifies this`assetMap, world`album, world`files
      ensures ok <==>
        && AllCreatable(old(world.files), world.env, newRemote, |newRemote|)
        && (AnyCreated(world.env, newRemote, |newRemote|) ==> !world.env.faults.download)
        && Packable(world.env, newLocal, |newLocal|) && (newLocal != [] ==> world.env.faults.create.Works?)
      ensures old(world.files) <= world.files && old(world.album) <= world.album
      ensures ok ==>
        && AfterDownload(old(assetMap), old(world.files), world.env, newRemote, fetched, world.files)
        && KnownAfterUpload(fetched, world.env, newLocal, |newLocal|, assetMap)
        && (OwnGuids(world.env, newLocal) ==> UnderGuids(world.env, newLocal, |newLocal|, assetMap))
        && forall a :: a in world.album <==> a in old(world.album) || Pending(world.env, newLocal, |newLocal|, a)
      ensures !ok && NewNames(old(world.files), world.env, newRemote) ==>
        || assetMap == old(assetMap)
        || (&& AllCreatable(old(world.files), world.env, newRemote, |newRemote|)
            && AfterDownload(old(assetMap), old(world.files), world.env, newRemote, assetMap, world.files))
    {
      ghost var reached;
      ok, reached := Download(newRemote);
      fetched := assetMap;
      if ok {
        ok := Upload(newLocal);
      }
    }

    /** `sync_folder`, for any deltas: exactly when it fails, and that whatever fails only what they say is deleted. */
    method SyncFolder(deltas: DeltaState) returns (ok: bool)
      modifies this`assetMap, world`album, world`files
      ensures ok <==> StepsSucceed(old(assetMap), old(world.files), world.env, deltas)
      ensures forall a :: a in old(world.album) && a !in world.album ==> a in deltas.deletedLocal
      ensures forall f :: f in old(world.files) && f !in world.files ==>
        Dropped(old(assetMap), deltas.deletedRemote, |deltas.deletedRemote|, f)
      ensures ok && Nice(old(Now()), world.env) && deltas.Of(old(Now()), world.env) ==>
        SyncOf(old(Now()), world.env, Now())
      ensures Nice(old(Now()), world.env) && deltas.Of(old(Now()), world.env) ==> Injective(assetMap)
    {
      ghost var s, env := Now(), world.env;
      ghost var nice := Nice(s, env) && deltas.Of(s, env);
      if !deltas.HasChanges() {
        if nice {
          NoChangesIsSync(s, env, deltas);
        }
        return true;
      }
      ok := RemoveRemote(deltas.deletedLocal);
      if !ok {
        return;
      }
      if nice {
        NiceSteps(s, env, deltas);
        AlbumAfterDeletion(s, env, deltas, world.album);
      }
      ok := RemoveLocal(deltas.deletedRemote);
      if !ok {
        return;
      }
      ghost var m2, files2 := assetMap, world.files;
      ghost var fetched;
      ok, fetched := Exchange(deltas.newRemote, deltas.newLocal);
      if nice {
        if ok {
          Together(s, env, deltas, m2, files2, fetched, Now());
          StaysInjective(s, env, Now());
        } else if assetMap != m2 {
          InjectiveAfterDownload(s, env, deltas, m2, files2, assetMap, world.files);
        }
      }
    }

    /**
     One sync, and exactly when it fails.  A remote asset is deleted only if its file was missing, a
     local file only if its asset had left the album, and the map stays injective, even if the sync
     fails; if it does not, it comes to `SyncOf`.
     */
    method DoSync() returns (ok: bool)
      modifies this`assetMap, world`album, world`files
      ensures ok <==> !world.env.faults.deltas && Succeeds(old(Now()), world.env)
      ensures forall a :: a in old(world.album) && a !in world.album ==>
        a in old(assetMap) && old(assetMap)[a] !in old(world.files)
      ensures forall f :: f in old(world.files) && f !in world.files ==>
        exists a :: a in old(assetMap) && a !in old(world.album) && old(assetMap)[a] == f
      ensures ok && Nice(old(Now()), world.env) ==> SyncOf(old(Now()), world.env, Now())
      ensures Nice(old(Now()), world.env) ==> Injective(assetMap)
    {
      var deltas := ComputeDeltas();
      if deltas.None? {
        return false;
      }
      ghost var s, ds := Now(), deltas.value.deletedRemote;
      StepsSucceedOf(s, world.env, deltas.value);
      ok := SyncFolder(deltas.value);
      forall f | f in s.files && f !in world.files
        ensures exists a :: a in s.assetMap && a !in s.album && s.assetMap[a] == f
      {
        var i :| 0 <= i < |ds| && ds[i] in s.assetMap && s.assetMap[ds[i]] == f;
        assert ds[i] in ds;
      }
    }
  }

  lemma SeenBefore(m: map<Id, Name>, unseen: set<Name>, deleted: seq<Id>, k: nat)
    requires k < |deleted| && AllSeen(m, unseen, deleted, k) && deleted[k] in deleted[..k]
    ensures AllSeen(m, unseen, deleted, k + 1)
  {
  }

  lemma AlbumAfterDeletion(s: Snapshot, env: Env, deltas: DeltaState, album: set<Id>)
    requires deltas.Of(s, env)
    requires forall a :: a in album <==> a in s.album && (a in deltas.deletedLocal ==> a in env.undeletable)
    ensures album == s.album - (s.DeletedLocal() - env.undeletable)
  {
  }
}
