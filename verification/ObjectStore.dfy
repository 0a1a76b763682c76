/** Writing, moving, reading and deleting stored objects (backend/app/storage.py). */
module ObjectStore {
  import opened Wrappers
  import opened Text
  import opened StorageNames
  import opened StorageRefs

  type Bytes = seq<bv8>

  /** The file system and the blobs of the configured GCS bucket. */
  datatype Store = Store(files: map<Path, Bytes>, dirs: set<Path>, blobs: map<string, Bytes>)

  datatype StoredObject = StoredObject(ref: string, filename: string, size: nat)

  /** Failures of the operating system during a write through a temporary file. */
  datatype Fault = NoFault | WriteFails | ReplaceFails

  // ---------- where a named object goes ----------

  predicate KnownBucket(config: Config, bucket: string) {
    if config.gcs then config.gcsBucket != "" && GcsDirectory(bucket).Some? else bucket in config.roots
  }

  function PlaceFor(config: Config, bucket: string, dir: Path, name: string): Place {
    if config.gcs then Blob(ObjectName(config, GcsDirectory(bucket).GetOr([]), dir + [name]))
    else File((if bucket in config.roots then config.roots[bucket] else []) + dir + [name])
  }

  function RefFor(config: Config, bucket: string, dir: Path, name: string): string {
    if config.gcs then GcsRef(config, ObjectName(config, GcsDirectory(bucket).GetOr([]), dir + [name]))
    else LocalRef(bucket, dir + [name])
  }

  /** What exists() finds: files, directories and blobs. */
  function Taken(s: Store): set<Place> {
    (set p | p in s.files :: File(p)) + (set p | p in s.dirs :: File(p)) + (set n | n in s.blobs :: Blob(n))
  }

  predicate Present(s: Store, place: Place) {
    match place
    case File(p) => p in s.files
    case Blob(n) => n in s.blobs
  }

  function Content(s: Store, place: Place): Bytes
    requires Present(s, place)
  {
    match place
    case File(p) => s.files[p]
    case Blob(n) => s.blobs[n]
  }

  function NameOf(place: Place): string {
    match place
    case File(p) => LastOf(p)
    case Blob(n) => LastOf(Parts(n))
  }

  /** The store with an object added, some files removed and some directories made. */
  function Put(s: Store, place: Place, content: Bytes, gone: set<Path>, made: set<Path>): Store {
    match place
    case File(p) => Store((s.files - gone)[p := content], s.dirs + made, s.blobs)
    case Blob(n) => Store(s.files - gone, s.dirs + made, s.blobs[n := content])
  }

  /** A file is where a directory is needed. */
  predicate Blocked(s: Store, target: Path) {
    exists n :: 0 <= n <= |target| && target[..n] in s.files
  }

  /** Only files whose names start as those of temporary files do. */
  predicate AllTemporary(paths: set<Path>) {
    forall p :: p in paths ==> Temporary(LastOf(p))
  }

  function Prefixes(p: Path): set<Path> {
    set n | 0 <= n <= |p| :: p[..n]
  }

  /**
   * The outcome of a successful write or move, on either backend: the object is the first free one for its
   * name, nothing that existed is overwritten, and only the given files disappear.
   */
  ghost predicate Wrote(config: Config, s: Store, t: Store, bucket: string, dir: Path, name: string, chosen: string,
                        content: Bytes, gone: set<Path>, obj: StoredObject) {
    && KnownBucket(config, bucket)
    && IsFirstFree(Taken(s), n => PlaceFor(config, bucket, dir, n), name, chosen)
    && (exists made :: t == Put(s, PlaceFor(config, bucket, dir, chosen), content, gone, made))
    && obj.ref == RefFor(config, bucket, dir, chosen)
    && (Locate(config, obj.ref) == At(PlaceFor(config, bucket, dir, chosen)) ==>
          obj.filename == NameOf(PlaceFor(config, bucket, dir, chosen)) && obj.size == |content|)
  }

  function ReadBytes(config: Config, s: Store, text: string): Result<(string, Bytes), Error> {
    match Locate(config, text)
    case At(place) => if Present(s, place) then Ok((NameOf(place), Content(s, place))) else Err(ArtifactNotFound)
    case _ => Err(ArtifactNotFound)
  }

  function Without(s: Store, place: Place): Store {
    match place
    case File(p) => s.(files := s.files - {p})
    case Blob(n) => s.(blobs := s.blobs - {n})
  }

  /** Deleting a missing file is fine, a missing blob raises, and a directory is not removed. */
  function Delete(config: Config, s: Store, text: string): (Store, Result<(), Error>) {
    match Locate(config, text)
    case Unknown => (s, Err(ArtifactNotFound))
    case Nowhere => (s, Ok(()))
    case At(place) =>
      if place.File? && place.path in s.dirs then (s, Err(OsError))
      else if place.Blob? && place.name !in s.blobs then (s, Err(OsError))
      else (Without(s, place), Ok(()))
  }

  // ---------- numbers name different objects on both backends ----------

  lemma LocalApart(target: Path, name: string)
    ensures NumbersApart(n => File(target + [n]), name)
  {
    forall j: nat, k: nat | File(target + [Numbered(name, j)]) == File(target + [Numbered(name, k)]) ensures j == k {
      assert (target + [Numbered(name, j)])[|target|] == Numbered(name, j);
      NumberedInjective(name, j, k);
    }
  }

  lemma GcsDirectoryParts(bucket: string)
    requires GcsDirectory(bucket).Some?
    ensures GcsDirectory(bucket).value != [] && AreParts(GcsDirectory(bucket).value)
    ensures forall i :: 0 <= i < |GcsDirectory(bucket).value| ==> '\n' !in GcsDirectory(bucket).value[i]
  {
    var directory := GcsDirectory(bucket).value;
    GcsWords(bucket);
    PlainWord(directory[0]);
    PlainWord(directory[1]);
  }

  lemma GcsWords(bucket: string)
    requires GcsDirectory(bucket).Some?
    ensures var directory := GcsDirectory(bucket).value; |directory| == 2 && IsWord(directory[0]) && IsWord(directory[1])
  {
  }

  /** Letters and underscores only. */
  predicate IsWord(p: string) {
    p != "" && forall i :: 0 <= i < |p| ==> 'a' <= p[i] <= 'z' || p[i] == '_'
  }

  lemma PlainWord(p: string)
    requires IsWord(p)
    ensures IsPart(p) && '\n' !in p
  {
    assert p[0] != '.';
  }

  lemma SameBlob(config: Config, bucket: string, dir: Path, a: string, b: string)
    requires config.gcs && GcsDirectory(bucket).Some? && AreParts(dir) && IsPart(a) && IsPart(b)
    requires PlaceFor(config, bucket, dir, a) == PlaceFor(config, bucket, dir, b)
    ensures a == b
  {
    GcsDirectoryParts(bucket);
    var directory, prefix := GcsDirectory(bucket).value, Trim(config.objectPrefix, IsSlash);
    assert a[|a| - 1] in a && b[|b| - 1] in b;
    assert LastOf(dir + [a]) == a && LastOf(dir + [b]) == b;
    PlainObjectName(config, directory, dir + [a]);
    PlainObjectName(config, directory, dir + [b]);
    var front := if prefix == "" then "" else prefix + "/";
    var x, y := Posix(directory + (dir + [a])), Posix(directory + (dir + [b]));
    assert front + x == front + y;
    assert x == (front + x)[|front|..] == (front + y)[|front|..] == y;
    PosixInjective(directory + (dir + [a]), directory + (dir + [b]));
    assert LastOf(directory + (dir + [a])) == a && LastOf(directory + (dir + [b])) == b;
  }

  lemma GcsApart(config: Config, bucket: string, dir: Path, name: string)
    requires config.gcs && GcsDirectory(bucket).Some? && AreParts(dir) && IsPart(name)
    ensures NumbersApart(n => PlaceFor(config, bucket, dir, n), name)
  {
    forall j: nat, k: nat | PlaceFor(config, bucket, dir, Numbered(name, j)) == PlaceFor(config, bucket, dir, Numbered(name, k))
      ensures j == k
    {
      NumberedIsPart(name, j);
      NumberedIsPart(name, k);
      SameBlob(config, bucket, dir, Numbered(name, j), Numbered(name, k));
      NumberedInjective(name, j, k);
    }
  }

  /** Making the directory of the target does not change which of its names are taken. */
  lemma MkdirTakesNoName(s: Store, target: Path, name: string, chosen: string)
    requires IsFirstFree(Taken(s.(dirs := s.dirs + Prefixes(target))), n => File(target + [n]), name, chosen)
    ensures IsFirstFree(Taken(s), n => File(target + [n]), name, chosen)
  {
    var t := s.(dirs := s.dirs + Prefixes(target));
    forall n ensures File(target + [n]) in Taken(t) <==> File(target + [n]) in Taken(s) {
      TempIsNoPrefix(target, n);
    }
  }

  /** The search depends on nothing but where the names lead. */
  lemma SameSearch(taken: set<Place>, at: string -> Place, at': string -> Place, name: string, chosen: string)
    requires IsFirstFree(taken, at, name, chosen) && forall n :: at(n) == at'(n)
    ensures IsFirstFree(taken, at', name, chosen)
  {
    if at(name) in taken {
      var k: nat :| k >= 1 && chosen == Numbered(name, k) && forall j: nat :: 1 <= j < k ==> at(Numbered(name, j)) in taken;
      assert forall j: nat :: 1 <= j < k ==> at'(Numbered(name, j)) in taken;
    }
  }

  lemma TempIsNoPrefix(target: Path, name: string)
    ensures target + [name] !in Prefixes(target)
  {
    assert forall q :: q in Prefixes(target) ==> |q| <= |target|;
  }

  lemma DefaultIsGood()
    ensures GoodName("artifact.bin")
  {
  }

  lemma SafeDefaultIsPart(filename: string)
    ensures IsPart(SafeFilename(filename, "artifact.bin"))
  {
    DefaultIsGood();
    SafeFilenameGood(filename, "artifact.bin");
    GoodNameIsPart(SafeFilename(filename, "artifact.bin"));
  }

  /** The temporary name of a write; hex is the random part. */
  function TempName(chosen: string, hex: string): string {
    ".tmp_" + chosen + "." + hex
  }

  lemma DotWithin(front: string, short: string, head: string, long: string)
    requires |short| < |long| && front + "." + short == head + long
    ensures '.' in long
  {
    var at := |long| - |short| - 1;
    assert (head + long)[|head| + at] == long[at];
    assert (front + "." + short)[|front|] == '.';
  }

  /** Temporary names of different random parts or for different names differ. */
  lemma TempNamesApart(a: string, b: string, x: string, y: string)
    requires '.' !in x && '.' !in y && TempName(a, x) == TempName(b, y)
    ensures a == b && x == y
  {
    var front, other := ".tmp_" + a, ".tmp_" + b;
    assert front + "." + x == other + "." + y;
    if |x| < |y| {
      DotWithin(front, x, other + ".", y);
    } else if |y| < |x| {
      DotWithin(other, y, front + ".", x);
    } else {
      var s := TempName(a, x);
      assert s[|s| - |x|..] == x && s[|s| - |y|..] == y;
      assert s[5..|s| - |x| - 1] == a && s[5..|s| - |y| - 1] == b;
    }
  }

  /** exists() finds files and directories, and blobs. */
  lemma TakenExactly(s: Store, p: Path, n: string)
    ensures File(p) in Taken(s) <==> p in s.files || p in s.dirs
    ensures Blob(n) in Taken(s) <==> n in s.blobs
  {
  }

  /** mkdir makes the directory and all above it. */
  lemma PrefixesExactly(target: Path, p: Path)
    ensures p in Prefixes(target) <==> p <= target
  {
    if p <= target {
      assert p == target[..|p|];
    }
  }

  // ---------- where a local object goes ----------

  /** root / Path(subdir): an absolute subdirectory replaces the root. */
  function TargetDir(config: Config, bucket: string, subdir: string): Path
    requires bucket in config.roots
  {
    if Anchor(subdir) == "" then config.roots[bucket] + Parts(subdir) else Parts(subdir)
  }

  /** The directory relative to the bucket; None for a local one outside, for which relative_to raises. */
  function RelativeDir(config: Config, bucket: string, subdir: string): Option<Path> {
    if config.gcs || Anchor(subdir) == "" then Some(Parts(subdir))
    else if bucket in config.roots && Anchor(subdir) == "/" && config.roots[bucket] <= Parts(subdir)
    then Some(Parts(subdir)[|config.roots[bucket]|..])
    else None
  }

  lemma TargetIsRelative(config: Config, bucket: string, subdir: string)
    requires !config.gcs && bucket in config.roots && RelativeDir(config, bucket, subdir).Some?
    ensures TargetDir(config, bucket, subdir) == config.roots[bucket] + RelativeDir(config, bucket, subdir).value
  {
  }

  /** A local object can be reported if and only if its directory is the bucket's or below. */
  lemma RelativeExactly(config: Config, bucket: string, subdir: string)
    requires !config.gcs && bucket in config.roots && Anchor(subdir) != "//"
    ensures RelativeDir(config, bucket, subdir).Some? <==> config.roots[bucket] <= TargetDir(config, bucket, subdir)
    ensures RelativeDir(config, bucket, subdir).Some? ==>
              config.roots[bucket] + RelativeDir(config, bucket, subdir).value == TargetDir(config, bucket, subdir)
    ensures subdir == "" || subdir[0] != '/' ==> TargetDir(config, bucket, subdir) == config.roots[bucket] + Parts(subdir)
    ensures subdir != "" && subdir[0] == '/' ==> TargetDir(config, bucket, subdir) == Parts(subdir)
  {
  }

  /** The object was put under the first free name of a directory outside the bucket. */
  ghost predicate PutOutside(s: Store, t: Store, target: Path, name: string, chosen: string, content: Bytes, gone: set<Path>) {
    && IsFirstFree(Taken(s), n => File(target + [n]), name, chosen)
    && exists made :: t == Put(s, File(target + [chosen]), content, gone, made)
  }

  /** The object is at the first free name of the target; it is reported if that lies in the bucket. */
  ghost predicate LocallyPut(config: Config, s: Store, t: Store, bucket: string, subdir: string, name: string,
                             chosen: string, content: Bytes, gone: set<Path>, r: Result<StoredObject, Error>)
    requires bucket in config.roots
  {
    && r == Reported(config, bucket, subdir, chosen, |content|)
    && if r.Ok? then Wrote(config, s, t, bucket, RelativeDir(config, bucket, subdir).GetOr([]), name, chosen, content, gone, r.value)
       else PutOutside(s, t, TargetDir(config, bucket, subdir), name, chosen, content, gone)
  }

  function Reported(config: Config, bucket: string, subdir: string, chosen: string, size: nat): Result<StoredObject, Error> {
    var relative := RelativeDir(config, bucket, subdir);
    if relative.None? then Err(OutsideBucket)
    else Ok(StoredObject(LocalRef(bucket, relative.value + [chosen]), chosen, size))
  }

  /**
   * The outcome of a local write. It raises when the bucket is unknown, a file or directory is in the way or the
   * operating system fails, and then no other file than a temporary one is gone; otherwise it puts the object.
   */
  ghost predicate WrittenLocally(config: Config, s: Store, t: Store, bucket: string, subdir: string, name: string,
                                 chosen: string, content: Bytes, gone: set<Path>, hex: string, fault: Fault,
                                 r: Result<StoredObject, Error>) {
    if bucket !in config.roots then r == Err(NotConfigured) && t == s
    else if Blocked(s, TargetDir(config, bucket, subdir)) || !fault.NoFault?
            || TargetDir(config, bucket, subdir) + [TempName(chosen, hex)] in s.dirs
    then r == Err(OsError) && t.files == s.files - gone && s.dirs <= t.dirs && t.blobs == s.blobs
    else LocallyPut(config, s, t, bucket, subdir, name, chosen, content, gone, r)
  }

  /** The outcome of a local move: nothing is gone but the source. */
  ghost predicate MovedLocally(config: Config, s: Store, t: Store, bucket: string, subdir: string, name: string,
                               chosen: string, content: Bytes, source: Path, r: Result<StoredObject, Error>) {
    if bucket !in config.roots then r == Err(NotConfigured) && t == s
    else if Blocked(s, TargetDir(config, bucket, subdir)) then r == Err(OsError) && t == s
    else LocallyPut(config, s, t, bucket, subdir, name, chosen, content, {source}, r)
  }

  /**
   * The outcome of an upload. It raises when the bucket is unknown, or when the reference of the blob it has just
   * put leads nowhere; that blob then stays behind.
   */
  ghost predicate Uploaded(config: Config, s: Store, t: Store, bucket: string, dir: Path, name: string, chosen: string,
                           content: Bytes, gone: set<Path>, r: Result<StoredObject, Error>) {
    if !KnownBucket(config, bucket) then r == Err(NotConfigured) && t == s
    else if !Locate(config, RefFor(config, bucket, dir, chosen)).At? then
      && r == Err(ArtifactNotFound)
      && IsFirstFree(Taken(s), n => PlaceFor(config, bucket, dir, n), name, chosen)
      && t == Put(s, PlaceFor(config, bucket, dir, chosen), content, {}, {})
    else r.Ok? && Wrote(config, s, t, bucket, dir, name, chosen, content, gone, r.value)
  }

  // ---------- the store as an object ----------

  class Storage {
    const config: Config
    var files: map<Path, Bytes>
    var dirs: set<Path>
    var blobs: map<string, Bytes>

    ghost function Abs(): Store
      reads this
    {
      Store(files, dirs, blobs)
    }

    constructor (config: Config, store: Store)
      ensures this.config == config && Abs() == store
    {
      this.config := config;
      files, dirs, blobs := store.files, store.dirs, store.blobs;
    }

    /** mkdir(parents=True, exist_ok=True), which fails when a file is in the way, and the search for a name. */
    method PrepareLocal(target: Path, name: string) returns (r: Result<string, Error>)
      modifies this`dirs
      ensures if Blocked(old(Abs()), target) then r == Err(OsError) && dirs == old(dirs)
              else r.Ok? && dirs == old(dirs) + Prefixes(target)
                   && IsFirstFree(Taken(old(Abs())), n => File(target + [n]), name, r.value)
    {
      if Blocked(Store(files, dirs, blobs), target) {
        return Err(OsError);
      }
      dirs := dirs + Prefixes(target);
      LocalApart(target, name);
      var chosen := FindFree(Taken(Store(files, dirs, blobs)), n => File(target + [n]), name);
      MkdirTakesNoName(old(Abs()), target, name, chosen);
      return Ok(chosen);
    }

    method WriteStorageBytes(bucket: string, filename: string, content: Bytes, subdir: string, hex: string, fault: Fault)
      returns (r: Result<StoredObject, Error>, ghost chosen: string, ghost gone: set<Path>)
      modifies this
      ensures AllTemporary(gone)
      ensures if config.gcs
              then Uploaded(config, old(Abs()), Abs(), bucket, Parts(subdir), SafeFilename(filename, "artifact.bin"), chosen,
                            content, gone, r)
              else WrittenLocally(config, old(Abs()), Abs(), bucket, subdir, SafeFilename(filename, "artifact.bin"), chosen,
                                  content, gone, hex, fault, r)
    {
      var name := SafeFilename(filename, "artifact.bin");
      if !config.gcs {
        r, chosen, gone := WriteLocal(bucket, subdir, name, content, hex, fault);
        return;
      }
      gone := {};
      SafeDefaultIsPart(filename);
      PartsAreParts(subdir);
      r, chosen := WriteBlob(bucket, Parts(subdir), name, content);
    }

    method WriteLocal(bucket: string, subdir: string, name: string, content: Bytes, hex: string, fault: Fault)
      returns (r: Result<StoredObject, Error>, ghost chosen: string, ghost gone: set<Path>)
      requires !config.gcs
      modifies this
      ensures AllTemporary(gone)
      ensures WrittenLocally(config, old(Abs()), Abs(), bucket, subdir, name, chosen, content, gone, hex, fault, r)
    {
      gone, chosen := {}, "";
      if bucket !in config.roots {
        return Err(NotConfigured), chosen, gone;
      }
      var target := TargetDir(config, bucket, subdir);
      var prepared := PrepareLocal(target, name);
      if prepared.Err? {
        assert files == files - gone;
        return Err(prepared.error), chosen, gone;
      }
      chosen := prepared.value;
      var temp := target + [TempName(prepared.value, hex)];
      TempIsNoPrefix(target, TempName(prepared.value, hex));
      if temp in dirs {
        assert files == files - gone;
        return Err(OsError), chosen, gone;
      }
      gone := {temp};
      if fault.WriteFails? || fault.ReplaceFails? {
        files := files - {temp};
        return Err(OsError), chosen, gone;
      }
      files := files[temp := content];
      files := (files - {temp})[target + [prepared.value] := content];
      assert files == (old(files) - gone)[target + [prepared.value] := content];
      r := Report(bucket, subdir, prepared.value, |content|);
      PutLocally(config, old(Abs()), bucket, subdir, name, chosen, content, gone);
    }

    /** relative_to, and the object it leads to. */
    method Report(bucket: string, subdir: string, chosen: string, size: nat) returns (r: Result<StoredObject, Error>)
      requires !config.gcs && bucket in config.roots
      ensures r == Reported(config, bucket, subdir, chosen, size)
    {
      var relative := RelativeDir(config, bucket, subdir);
      if relative.None? {
        return Err(OutsideBucket);
      }
      return Ok(StoredObject(LocalRef(bucket, relative.value + [chosen]), chosen, size));
    }

    method WriteBlob(bucket: string, dir: Path, name: string, content: Bytes)
      returns (r: Result<StoredObject, Error>, ghost chosen: string)
      requires config.gcs && AreParts(dir) && IsPart(name)
      modifies this`blobs
      ensures Uploaded(config, old(Abs()), Abs(), bucket, dir, name, chosen, content, {}, r)
    {
      chosen := name;
      if config.gcsBucket == "" || GcsDirectory(bucket).None? {
        return Err(NotConfigured), chosen;
      }
      GcsApart(config, bucket, dir, name);
      var free := FindFree(Taken(Store(files, dirs, blobs)), n => PlaceFor(config, bucket, dir, n), name);
      chosen := free;
      var objectName := ObjectName(config, GcsDirectory(bucket).value, dir + [free]);
      blobs := blobs[objectName := content];
      assert Abs() == Put(old(Abs()), PlaceFor(config, bucket, dir, free), content, {}, {});
      var stat := StatBlob(config, Store(files, dirs, blobs), GcsRef(config, objectName), objectName, |content|);
      if stat.None? {
        return Err(ArtifactNotFound), chosen;
      }
      UploadedBlob(config, old(Abs()), bucket, dir, name, free, content);
      return Ok(stat.value), chosen;
    }

    method MoveFileToStorage(bucket: string, source: Path, filename: string, subdir: string)
      returns (r: Result<StoredObject, Error>, ghost chosen: string)
      modifies this
      ensures source !in old(files) ==> r == Err(SourceNotFound) && Abs() == old(Abs())
      ensures source in old(files) ==>
                if config.gcs
                then Uploaded(config, old(Abs()), Abs(), bucket, Parts(subdir), MovedName(config, filename, source), chosen,
                              old(files)[source], {source}, r)
                else MovedLocally(config, old(Abs()), Abs(), bucket, subdir, MovedName(config, filename, source), chosen,
                                  old(files)[source], source, r)
    {
      chosen := "";
      if source !in files {
        return Err(SourceNotFound), chosen;
      }
      var content := files[source];
      var name := SafeFilename(if filename != "" then filename else LastOf(source),
                               if LastOf(source) != "" then LastOf(source) else "artifact.bin");
      if !config.gcs {
        r, chosen := MoveLocal(bucket, source, name, subdir);
        return;
      }
      SafeDefaultIsPart(name);
      PartsAreParts(subdir);
      r, chosen := WriteBlob(bucket, Parts(subdir), SafeFilename(name, "artifact.bin"), content);
      if r.Ok? {
        ghost var uploaded := Abs();
        files := files - {source};
        AlsoGone(config, old(Abs()), uploaded, bucket, Parts(subdir), SafeFilename(name, "artifact.bin"), chosen, content,
                 source, r.value);
      }
    }

    method MoveLocal(bucket: string, source: Path, name: string, subdir: string)
      returns (r: Result<StoredObject, Error>, ghost chosen: string)
      requires !config.gcs && source in files
      modifies this
      ensures MovedLocally(config, old(Abs()), Abs(), bucket, subdir, name, chosen, old(files)[source], source, r)
    {
      chosen := "";
      if bucket !in config.roots {
        return Err(NotConfigured), chosen;
      }
      var target := TargetDir(config, bucket, subdir);
      var prepared := PrepareLocal(target, name);
      if prepared.Err? {
        return Err(prepared.error), chosen;
      }
      chosen := prepared.value;
      var content := files[source];
      files := (files - {source})[target + [prepared.value] := content];
      r := Report(bucket, subdir, prepared.value, |content|);
      PutLocally(config, old(Abs()), bucket, subdir, name, chosen, content, {source});
    }

    method ReadStorageBytes(text: string) returns (r: Result<(string, Bytes), Error>)
      ensures r == ReadBytes(config, Abs(), text)
    {
      var located := Locate(config, text);
      if !located.At? || !Present(Store(files, dirs, blobs), located.place) {
        return Err(ArtifactNotFound);
      }
      return Ok((NameOf(located.place), Content(Store(files, dirs, blobs), located.place)));
    }

    method DeleteStorageRef(text: string) returns (r: Result<(), Error>)
      modifies this
      ensures (Abs(), r) == Delete(config, old(Abs()), text)
    {
      var located := Locate(config, text);
      if located.Unknown? {
        return Err(ArtifactNotFound);
      }
      if located.Nowhere? {
        return Ok(());
      }
      match located.place
      case File(p) =>
        if p in dirs {
          return Err(OsError);
        }
        files := files - {p};
        return Ok(());
      case Blob(n) =>
        if n !in blobs {
          return Err(OsError);
        }
        blobs := blobs - {n};
        return Ok(());
    }
  }

  /** The name under which a moved file is stored; on GCS it is sanitised a second time. */
  function MovedName(config: Config, filename: string, source: Path): string {
    var name := SafeFilename(if filename != "" then filename else LastOf(source),
                             if LastOf(source) != "" then LastOf(source) else "artifact.bin");
    if config.gcs then SafeFilename(name, "artifact.bin") else name
  }

  /** What a local write or move has then done is what any write does, if the directory is in the bucket. */
  lemma PutLocally(config: Config, s: Store, bucket: string, subdir: string, name: string, chosen: string, content: Bytes,
                   gone: set<Path>)
    requires !config.gcs && bucket in config.roots
    requires IsFirstFree(Taken(s), n => File(TargetDir(config, bucket, subdir) + [n]), name, chosen)
    ensures var target := TargetDir(config, bucket, subdir);
            LocallyPut(config, s, Store((s.files - gone)[target + [chosen] := content], s.dirs + Prefixes(target), s.blobs),
                       bucket, subdir, name, chosen, content, gone, Reported(config, bucket, subdir, chosen, |content|))
  {
    var target := TargetDir(config, bucket, subdir);
    var t := Store((s.files - gone)[target + [chosen] := content], s.dirs + Prefixes(target), s.blobs);
    assert t == Put(s, File(target + [chosen]), content, gone, Prefixes(target));
    if RelativeDir(config, bucket, subdir).Some? {
      var dir := RelativeDir(config, bucket, subdir).value;
      TargetIsRelative(config, bucket, subdir);
      SameSearch(Taken(s), n => File(target + [n]), n => PlaceFor(config, bucket, dir, n), name, chosen);
      PutRelative(config, s, t, bucket, dir, name, chosen, content, gone);
    }
  }

  lemma PutRelative(config: Config, s: Store, t: Store, bucket: string, dir: Path, name: string, chosen: string,
                    content: Bytes, gone: set<Path>)
    requires !config.gcs && bucket in config.roots
    requires IsFirstFree(Taken(s), n => PlaceFor(config, bucket, dir, n), name, chosen)
    requires exists made :: t == Put(s, File(config.roots[bucket] + dir + [chosen]), content, gone, made)
    ensures Wrote(config, s, t, bucket, dir, name, chosen, content, gone,
                  StoredObject(LocalRef(bucket, dir + [chosen]), chosen, |content|))
  {
    assert NameOf(File(config.roots[bucket] + dir + [chosen])) == chosen;
  }

  lemma AlsoGone(config: Config, s: Store, t: Store, bucket: string, dir: Path, name: string, chosen: string,
                 content: Bytes, source: Path, obj: StoredObject)
    requires config.gcs && Wrote(config, s, t, bucket, dir, name, chosen, content, {}, obj)
    ensures Wrote(config, s, t.(files := t.files - {source}), bucket, dir, name, chosen, content, {source}, obj)
  {
    var made :| t == Put(s, PlaceFor(config, bucket, dir, chosen), content, {}, made);
    assert t.files == s.files - {} == s.files;
    assert t.(files := t.files - {source}) == Put(s, PlaceFor(config, bucket, dir, chosen), content, {source}, made);
  }

  /** What a finished upload reports: the blob its own reference leads to, or else what was uploaded. */
  function StatBlob(config: Config, s: Store, text: string, objectName: string, size: nat): Option<StoredObject> {
    var located := Locate(config, text);
    if !located.At? then None
    else if Present(s, located.place)
    then Some(StoredObject(text, NameOf(located.place), |Content(s, located.place)|))
    else Some(StoredObject(text, LastOf(Parts(objectName)), size))
  }

  /** An upload reports its chosen name, even if its reference leads elsewhere, unless there is a line break in its path. */
  lemma UploadNamed(config: Config, s: Store, directory: Path, dir: Path, chosen: string, size: nat)
    requires config.gcs && config.gcsBucket != "" && '/' !in config.gcsBucket
    requires AreParts(directory) && directory != [] && PlainDirectory(dir) && Referable(chosen)
    ensures var objectName := ObjectName(config, directory, dir + [chosen]);
            var stat := StatBlob(config, s, GcsRef(config, objectName), objectName, size);
            && (stat.None? <==> '\n' in objectName)
            && (stat.Some? ==> stat.value.filename == chosen)
            && (stat.Some? && AsPosix(objectName) !in s.blobs ==> stat.value.size == size)
  {
    GcsRefLeads(config, directory, dir, chosen);
    ObjectNameLast(config, directory, dir, chosen);
  }

  lemma UploadedBlob(config: Config, s: Store, bucket: string, dir: Path, name: string, chosen: string, content: Bytes)
    requires config.gcs && KnownBucket(config, bucket)
    requires IsFirstFree(Taken(s), n => PlaceFor(config, bucket, dir, n), name, chosen)
    ensures var objectName := ObjectName(config, GcsDirectory(bucket).value, dir + [chosen]);
            var t := s.(blobs := s.blobs[objectName := content]);
            var stat := StatBlob(config, t, GcsRef(config, objectName), objectName, |content|);
            stat.Some? ==> Wrote(config, s, t, bucket, dir, name, chosen, content, {}, stat.value)
  {
    var objectName := ObjectName(config, GcsDirectory(bucket).value, dir + [chosen]);
    var t := s.(blobs := s.blobs[objectName := content]);
    assert t == Put(s, PlaceFor(config, bucket, dir, chosen), content, {}, {});
  }
}
