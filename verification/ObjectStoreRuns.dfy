/** Every stored object reads back until it is deleted: runs of the object store on either backend. */
module ObjectStoreRuns {
  import opened Wrappers
  import opened Text
  import opened StorageNames
  import opened StorageRefs
  import opened ObjectStore
  import opened StoreLedger

  /** The configuration of a deployment: no root inside another, and a prefix pathlib leaves alone. */
  ghost predicate Deployed(config: Config) {
    && (forall b :: b in config.roots ==> b != "" && '/' !in b)
    && (forall b, c :: b in config.roots && c in config.roots && config.roots[b] <= config.roots[c] ==> b == c)
    && '/' !in config.gcsBucket
    && NormalPrefix(Trim(config.objectPrefix, IsSlash)) && '\n' !in config.objectPrefix
  }

  /** A directory whose references parse back: no ".." and no newline. */
  predicate ReferableDirectory(dir: Path) {
    PlainDirectory(dir) && PlainLines(dir)
  }

  /** The object directory, name and bucket of a reference that the store issues. */
  predicate Addressable(config: Config, bucket: string, dir: Path, name: string) {
    KnownBucket(config, bucket) && ReferableDirectory(dir) && Storable(name)
  }

  lemma {:induction false} PosixNewline(ps: seq<string>)
    requires AreParts(ps) && forall i :: 0 <= i < |ps| ==> '\n' !in ps[i]
    ensures '\n' !in Posix(ps)
  {
    if |ps| > 1 {
      PosixNewline(ps[1..]);
    }
  }

  /** The reference of an object leads to it, on either backend. */
  lemma RefLeadsHome(config: Config, bucket: string, dir: Path, name: string)
    requires Deployed(config) && Addressable(config, bucket, dir, name)
    ensures Locate(config, RefFor(config, bucket, dir, name)) == At(PlaceFor(config, bucket, dir, name))
  {
    if config.gcs {
      GcsRefLeadsHome(config, bucket, dir, name);
    } else {
      LocalRefExactly(config, bucket, dir, name);
    }
  }

  lemma GcsRefLeadsHome(config: Config, bucket: string, dir: Path, name: string)
    requires Deployed(config) && Addressable(config, bucket, dir, name) && config.gcs
    ensures Locate(config, RefFor(config, bucket, dir, name)) == At(PlaceFor(config, bucket, dir, name))
  {
    var directory := GcsDirectory(bucket).value;
    GcsDirectoryParts(bucket);
    GcsRefExactly(config, directory, dir, name);
    ObjectNameShape(config, directory, dir, name);
    PosixNewline(directory + dir + [name]);
    TrimSpec(config.objectPrefix, IsSlash);
  }

  lemma LastPartOf(prefix: string, all: Path)
    requires AreParts(all) && all != []
    ensures LastOf(Parts((if prefix == "" then "" else prefix + "/") + Posix(all))) == LastOf(all)
  {
    PartsOfPosix(all);
    if prefix != "" {
      PartsConcat(prefix, Posix(all));
    } else {
      assert "" + Posix(all) == Posix(all);
    }
  }

  lemma PlaceName(config: Config, bucket: string, dir: Path, name: string)
    requires Addressable(config, bucket, dir, name)
    ensures NameOf(PlaceFor(config, bucket, dir, name)) == name
  {
    if config.gcs {
      GcsDirectoryParts(bucket);
      ObjectNameShape(config, GcsDirectory(bucket).value, dir, name);
      LastPartOf(Trim(config.objectPrefix, IsSlash), GcsDirectory(bucket).value + dir + [name]);
    }
  }

  lemma PrefixOf(a: Path, b: Path, x: Path, y: Path)
    requires a + x == b + y && |a| <= |b|
    ensures a <= b
  {
    assert a == (a + x)[..|a|] == (b + y)[..|a|] == b[..|a|];
  }

  /** Different references name different places. */
  lemma OneRefPerPlace(config: Config, b1: string, d1: Path, n1: string, b2: string, d2: Path, n2: string)
    requires Deployed(config) && KnownBucket(config, b1) && KnownBucket(config, b2)
    requires PlaceFor(config, b1, d1, n1) == PlaceFor(config, b2, d2, n2)
    ensures RefFor(config, b1, d1, n1) == RefFor(config, b2, d2, n2)
  {
    if !config.gcs {
      var r1, r2 := config.roots[b1], config.roots[b2];
      assert r1 + (d1 + [n1]) == r1 + d1 + [n1] == r2 + d2 + [n2] == r2 + (d2 + [n2]);
      if |r1| <= |r2| {
        PrefixOf(r1, r2, d1 + [n1], d2 + [n2]);
      } else {
        PrefixOf(r2, r1, d2 + [n2], d1 + [n1]);
      }
      assert d1 + [n1] == (r1 + (d1 + [n1]))[|r1|..] == d2 + [n2];
    }
  }

  /** A reference as the store returns them. */
  ghost predicate Issued(config: Config, text: string) {
    exists bucket, dir, name ::
      Addressable(config, bucket, dir, name) && text == RefFor(config, bucket, dir, name)
  }

  ghost function Locator(config: Config): string -> Located {
    text => Locate(config, text)
  }

  ghost function Issuer(config: Config): string -> bool {
    text => Issued(config, text)
  }

  lemma IssuedOnePerPlace(config: Config)
    requires Deployed(config)
    ensures OnePerPlace(Locator(config), Issuer(config))
  {
    forall a, b | Issuer(config)(a) && Issuer(config)(b) && Locator(config)(a) == Locator(config)(b)
      ensures a == b
    {
      var b1, d1, n1 :| Addressable(config, b1, d1, n1) && a == RefFor(config, b1, d1, n1);
      var b2, d2, n2 :| Addressable(config, b2, d2, n2) && b == RefFor(config, b2, d2, n2);
      RefLeadsHome(config, b1, d1, n1);
      RefLeadsHome(config, b2, d2, n2);
      OneRefPerPlace(config, b1, d1, n1, b2, d2, n2);
    }
  }

  lemma NotTaken(s: Store, place: Place)
    requires place !in Taken(s)
    ensures !Present(s, place)
  {
    match place
    case File(p) => assert p in s.files ==> File(p) in Taken(s);
    case Blob(n) => assert n in s.blobs ==> Blob(n) in Taken(s);
  }

  lemma FirstFreeStorable(config: Config, s: Store, bucket: string, dir: Path, name: string, chosen: string)
    requires IsFirstFree(Taken(s), n => PlaceFor(config, bucket, dir, n), name, chosen) && Storable(name)
    ensures Storable(chosen)
  {
    if chosen != name {
      var k: nat :| k >= 1 && chosen == Numbered(name, k);
      NumberedStorable(name, k);
    }
  }

  /** A write or move issues a new reference with the promised name; all others keep reading back. */
  lemma WriteKeepsCoherent(config: Config, s: Store, t: Store, live: Live, bucket: string, dir: Path, name: string,
                           chosen: string, content: Bytes, gone: set<Path>, obj: StoredObject)
    requires Deployed(config) && Coherent(Locator(config), Issuer(config), s, live)
    requires Wrote(config, s, t, bucket, dir, name, chosen, content, gone, obj) && Addressable(config, bucket, dir, name)
    ensures obj.ref !in live && obj.filename == chosen && obj.size == |content|
    ensures Coherent(Locator(config), Issuer(config), t, Sparing(Locator(config), live, gone)[obj.ref := (chosen, content)])
  {
    var place := PlaceFor(config, bucket, dir, chosen);
    FirstFreeStorable(config, s, bucket, dir, name, chosen);
    RefLeadsHome(config, bucket, dir, chosen);
    PlaceName(config, bucket, dir, chosen);
    NotTaken(s, place);
    assert Addressable(config, bucket, dir, chosen);
    var made :| t == Put(s, place, content, gone, made);
    PutKeeps(Locator(config), Issuer(config), s, live, place, content, gone, made, obj.ref);
  }

  /** Every name given to write_storage_bytes is sanitised to one that can be stored, and so is the chosen one. */
  lemma WrittenNameStorable(filename: string)
    ensures GoodName(SafeFilename(filename, "artifact.bin")) && Storable(SafeFilename(filename, "artifact.bin"))
  {
    DefaultIsGood();
    SafeFilenameGood(filename, "artifact.bin");
    GoodIsStorable(SafeFilename(filename, "artifact.bin"));
  }

  /** A chosen name never starts with a dot, so that no written object is taken for a temporary file. */
  lemma WrittenNeverTemporary(config: Config, s: Store, bucket: string, dir: Path, filename: string, chosen: string)
    requires IsFirstFree(Taken(s), n => PlaceFor(config, bucket, dir, n), SafeFilename(filename, "artifact.bin"), chosen)
    ensures GoodName(chosen) && chosen[0] != '.'
    ensures forall other, hex :: chosen != TempName(other, hex)
  {
    WrittenNameStorable(filename);
    FirstFreeGood(Taken(s), n => PlaceFor(config, bucket, dir, n), SafeFilename(filename, "artifact.bin"), chosen);
    GoodIsStorable(chosen);
    forall other, hex ensures chosen != TempName(other, hex) {
      assert TempName(other, hex)[0] == '.';
    }
  }

  /** A write through a temporary file takes no live reference away. */
  lemma HiddenFilesAreNotLive(config: Config, s: Store, live: Live, gone: set<Path>)
    requires Deployed(config) && Coherent(Locator(config), Issuer(config), s, live) && AllTemporary(gone)
    ensures Sparing(Locator(config), live, gone) == live
  {
    forall text | text in live ensures Locate(config, text).At? ==> Spares(gone, Locate(config, text).place) {
      assert Issuer(config)(text);
      var b, d, n :| Addressable(config, b, d, n) && text == RefFor(config, b, d, n);
      RefLeadsHome(config, b, d, n);
      PlaceName(config, b, d, n);
      assert PlaceFor(config, b, d, n).File? ==> LastOf(PlaceFor(config, b, d, n).path) == n;
    }
  }

  /** The references left after a delete: when it removes an object, those that lead elsewhere. */
  ghost function AfterDelete(config: Config, s: Store, live: Live, text: string): Live {
    if Delete(config, s, text).1.Ok? && Locate(config, text).At?
    then Elsewhere(Locator(config), live, text)
    else live
  }

  lemma DeleteIs(config: Config, s: Store, text: string)
    ensures Delete(config, s, text).1.Ok? && Locate(config, text).At? ==>
              Delete(config, s, text).0 == Without(s, Locate(config, text).place)
    ensures !(Delete(config, s, text).1.Ok? && Locate(config, text).At?) ==> Delete(config, s, text).0 == s
  {
  }

  /** A delete that returns takes away exactly that reference if it is live; one that raises changes nothing. */
  lemma DeleteKeepsCoherent(config: Config, s: Store, live: Live, text: string)
    requires Deployed(config) && Coherent(Locator(config), Issuer(config), s, live)
    ensures Coherent(Locator(config), Issuer(config), Delete(config, s, text).0, AfterDelete(config, s, live, text))
    ensures text in live && Delete(config, s, text).1.Ok? ==> AfterDelete(config, s, live, text) == live - {text}
    ensures Delete(config, s, text).1.Err? ==> Delete(config, s, text).0 == s
  {
    DeleteIs(config, s, text);
    if text in live {
      assert Reads(Locator(config), s, text, live[text]);
    }
    if Locator(config)(text).At? {
      IssuedOnePerPlace(config);
      RemoveKeepsElsewhere(Locator(config), Issuer(config), s, live, text);
    }
  }

  /** Coherence is what readers see. */
  lemma CoherentReads(config: Config, s: Store, live: Live, text: string)
    requires Coherent(Locator(config), Issuer(config), s, live) && text in live
    ensures ReadBytes(config, s, text) == Ok(live[text])
  {
    assert Reads(Locator(config), s, text, live[text]);
  }

  // ---------- runs ----------

  datatype Moment = Moment(store: Store, live: Live)

  /** A write or move that returned an object under a reference that leads home; a moved live object is gone. */
  ghost predicate WriteStep(config: Config, a: Moment, b: Moment) {
    exists bucket, dir, name, chosen, content, gone, obj ::
      && Wrote(config, a.store, b.store, bucket, dir, name, chosen, content, gone, obj)
      && Addressable(config, bucket, dir, name)
      && b.live == Sparing(Locator(config), a.live, gone)[obj.ref := (obj.filename, content)]
  }

  ghost predicate DeleteStep(config: Config, a: Moment, b: Moment) {
    exists text ::
      b.store == Delete(config, a.store, text).0 && b.live == AfterDelete(config, a.store, a.live, text)
  }

  /**
   * A write or move that raised, or whose reference is not promised to lead home: files may be gone, and an
   * object may have been put where there was none.
   */
  ghost predicate StrayStep(config: Config, a: Moment, b: Moment) {
    exists gone ::
      && b.live == Sparing(Locator(config), a.live, gone)
      && (|| (b.store.files == a.store.files - gone && b.store.blobs == a.store.blobs)
          || exists place, content, made :: place !in Taken(a.store) && b.store == Put(a.store, place, content, gone, made))
  }

  ghost predicate StoreStep(config: Config, a: Moment, b: Moment) {
    WriteStep(config, a, b) || DeleteStep(config, a, b) || StrayStep(config, a, b)
  }

  ghost predicate Sane(config: Config, m: Moment) {
    Coherent(Locator(config), Issuer(config), m.store, m.live)
  }

  /** The references live after a call: a returned object adds its own if that leads home. */
  ghost function LiveAfter(config: Config, live: Live, bucket: string, dir: Option<Path>, name: string, content: Bytes,
                           gone: set<Path>, r: Result<StoredObject, Error>): Live {
    var spared := Sparing(Locator(config), live, gone);
    if r.Ok? && dir.Some? && Addressable(config, bucket, dir.value, name)
    then spared[r.value.ref := (r.value.filename, content)] else spared
  }

  lemma WroteIsStep(config: Config, a: Moment, t: Store, bucket: string, dir: Path, name: string, chosen: string,
                    content: Bytes, gone: set<Path>, obj: StoredObject)
    requires Wrote(config, a.store, t, bucket, dir, name, chosen, content, gone, obj)
    ensures StoreStep(config, a, Moment(t, LiveAfter(config, a.live, bucket, Some(dir), name, content, gone, Ok(obj))))
  {
    var b := Moment(t, LiveAfter(config, a.live, bucket, Some(dir), name, content, gone, Ok(obj)));
    if Addressable(config, bucket, dir, name) {
      assert WriteStep(config, a, b);
    } else {
      var made :| t == Put(a.store, PlaceFor(config, bucket, dir, chosen), content, gone, made);
      PutIsStep(config, a, b, PlaceFor(config, bucket, dir, chosen), content, gone, made);
    }
  }

  lemma PutIsStep(config: Config, a: Moment, b: Moment, place: Place, content: Bytes, gone: set<Path>, made: set<Path>)
    requires place !in Taken(a.store) && b.store == Put(a.store, place, content, gone, made)
    requires b.live == Sparing(Locator(config), a.live, gone)
    ensures StoreStep(config, a, b)
  {
    assert StrayStep(config, a, b);
  }

  lemma GoneIsStep(config: Config, a: Moment, b: Moment, gone: set<Path>)
    requires b.store.files == a.store.files - gone && b.store.blobs == a.store.blobs
    requires b.live == Sparing(Locator(config), a.live, gone)
    ensures StoreStep(config, a, b)
  {
    assert StrayStep(config, a, b);
  }

  lemma PutOutsideIsStep(config: Config, a: Moment, t: Store, target: Path, name: string, chosen: string, content: Bytes,
                         gone: set<Path>)
    requires PutOutside(a.store, t, target, name, chosen, content, gone)
    ensures StoreStep(config, a, Moment(t, Sparing(Locator(config), a.live, gone)))
  {
    var made :| t == Put(a.store, File(target + [chosen]), content, gone, made);
    PutIsStep(config, a, Moment(t, Sparing(Locator(config), a.live, gone)), File(target + [chosen]), content, gone, made);
  }

  lemma LocalPutIsStep(config: Config, a: Moment, t: Store, bucket: string, subdir: string, name: string, chosen: string,
                       content: Bytes, gone: set<Path>, r: Result<StoredObject, Error>)
    requires bucket in config.roots && LocallyPut(config, a.store, t, bucket, subdir, name, chosen, content, gone, r)
    ensures StoreStep(config, a, Moment(t, LiveAfter(config, a.live, bucket, RelativeDir(config, bucket, subdir), name, content, gone, r)))
  {
    if r.Ok? {
      WroteIsStep(config, a, t, bucket, RelativeDir(config, bucket, subdir).value, name, chosen, content, gone, r.value);
    } else {
      PutOutsideIsStep(config, a, t, TargetDir(config, bucket, subdir), name, chosen, content, gone);
    }
  }

  lemma UploadIsStep(config: Config, a: Moment, t: Store, bucket: string, dir: Path, name: string, chosen: string,
                     content: Bytes, gone: set<Path>, r: Result<StoredObject, Error>)
    requires Uploaded(config, a.store, t, bucket, dir, name, chosen, content, gone, r)
    ensures StoreStep(config, a, Moment(t, LiveAfter(config, a.live, bucket, Some(dir), name, content,
                                                     if r.Err? then {} else gone, r)))
  {
    if r.Ok? {
      WroteIsStep(config, a, t, bucket, dir, name, chosen, content, gone, r.value);
    } else if t == a.store {
      assert t.files == a.store.files - {};
      GoneIsStep(config, a, Moment(t, Sparing(Locator(config), a.live, {})), {});
    } else {
      PutIsStep(config, a, Moment(t, Sparing(Locator(config), a.live, {})), PlaceFor(config, bucket, dir, chosen), content, {}, {});
    }
  }

  /** Every call of write_storage_bytes, however it ends, is such a step. */
  lemma WriteCallIsStep(config: Config, a: Moment, t: Store, bucket: string, filename: string, subdir: string, hex: string,
                        fault: Fault, chosen: string, content: Bytes, gone: set<Path>, r: Result<StoredObject, Error>)
    requires var name := SafeFilename(filename, "artifact.bin");
             if config.gcs then Uploaded(config, a.store, t, bucket, Parts(subdir), name, chosen, content, gone, r)
             else WrittenLocally(config, a.store, t, bucket, subdir, name, chosen, content, gone, hex, fault, r)
    ensures StoreStep(config, a, Moment(t, LiveAfter(config, a.live, bucket, RelativeDir(config, bucket, subdir),
                                                     SafeFilename(filename, "artifact.bin"), content,
                                                     if (config.gcs && r.Err?) || r == Err(NotConfigured) then {} else gone, r)))
  {
    var name := SafeFilename(filename, "artifact.bin");
    if config.gcs {
      UploadIsStep(config, a, t, bucket, Parts(subdir), name, chosen, content, gone, r);
    } else if r == Err(NotConfigured) {
      assert t.files == a.store.files - {};
      GoneIsStep(config, a, Moment(t, Sparing(Locator(config), a.live, {})), {});
    } else if r == Err(OsError) {
      GoneIsStep(config, a, Moment(t, Sparing(Locator(config), a.live, gone)), gone);
    } else {
      LocalPutIsStep(config, a, t, bucket, subdir, name, chosen, content, gone, r);
    }
  }

  /** And so is every call of move_file_to_storage, whatever the source. */
  lemma MoveCallIsStep(config: Config, a: Moment, t: Store, bucket: string, source: Path, filename: string, subdir: string,
                       chosen: string, content: Bytes, r: Result<StoredObject, Error>)
    requires var name := MovedName(config, filename, source);
             if config.gcs then Uploaded(config, a.store, t, bucket, Parts(subdir), name, chosen, content, {source}, r)
             else MovedLocally(config, a.store, t, bucket, subdir, name, chosen, content, source, r)
    ensures StoreStep(config, a, Moment(t, LiveAfter(config, a.live, bucket, RelativeDir(config, bucket, subdir),
                                                     MovedName(config, filename, source), content,
                                                     if r.Err? && r.error != OutsideBucket then {} else {source}, r)))
  {
    var name := MovedName(config, filename, source);
    if config.gcs {
      UploadIsStep(config, a, t, bucket, Parts(subdir), name, chosen, content, {source}, r);
    } else if t == a.store && r.Err? && r.error != OutsideBucket {
      assert t.files == a.store.files - {};
      GoneIsStep(config, a, Moment(t, Sparing(Locator(config), a.live, {})), {});
    } else {
      LocalPutIsStep(config, a, t, bucket, subdir, name, chosen, content, {source}, r);
    }
  }

  /** In a deployment, an upload to a known bucket under a name that can be stored always returns an object. */
  lemma EveryUploadReturns(config: Config, s: Store, t: Store, bucket: string, dir: Path, name: string, chosen: string,
                           content: Bytes, gone: set<Path>, r: Result<StoredObject, Error>)
    requires Deployed(config) && config.gcs && Addressable(config, bucket, dir, name)
    requires Uploaded(config, s, t, bucket, dir, name, chosen, content, gone, r)
    ensures r.Ok?
  {
    if r.Err? {
      FirstFreeStorable(config, s, bucket, dir, name, chosen);
      RefLeadsHome(config, bucket, dir, chosen);
    }
  }

  // ---------- names of moved files ----------

  /** Sanitising finds something to keep, or falls back on the default. */
  lemma SafeOrDefault(filename: string, default: string)
    requires filename != ""
    ensures SafeFilename(filename, default) == if SafeFilename(filename, "") != "" then SafeFilename(filename, "") else default
  {
  }

  /**
   * move_file_to_storage falls back on the source's own name, which is not sanitised: on the local backend the
   * stored name can be referred to exactly when something of the given name can be kept or the source's own
   * name can be referred to as it is; likewise for being no temporary one. On GCS it is sanitised again.
   */
  lemma MovedNameExactly(config: Config, filename: string, source: Path)
    requires LastOf(source) != ""
    ensures var name := MovedName(config, filename, source);
            var kept := SafeFilename(if filename != "" then filename else LastOf(source), "") != "";
            && (Referable(name) <==> config.gcs || kept || Referable(LastOf(source)))
            && (Storable(name) <==> config.gcs || kept || Storable(LastOf(source)))
  {
    var given := if filename != "" then filename else LastOf(source);
    if config.gcs {
      WrittenNameStorable(SafeFilename(given, LastOf(source)));
    } else {
      SafeOrDefault(given, LastOf(source));
      SafeFilenameGood(given, "");
      if SafeFilename(given, "") != "" {
        GoodIsStorable(SafeFilename(given, ""));
      }
    }
  }

  /**
   * A moved file is named by what can be kept of the name given, or of the source's without one. If nothing can be
   * kept, the local backend leaves the source's own name as it is, and GCS sanitises that.
   */
  lemma MovedNameIs(config: Config, filename: string, source: Path)
    requires LastOf(source) != ""
    ensures var name, c := MovedName(config, filename, source), NamePart(filename, LastOf(source));
            if exists i :: 0 <= i < |c| && !Unusable(c[i]) then exists lo, hi :: WrittenBetween(c, name, lo, hi)
            else name == if config.gcs then SafeFilename(LastOf(source), "artifact.bin") else LastOf(source)
  {
    var c, first := NamePart(filename, LastOf(source)), SafeFilename(filename, LastOf(source));
    SafeFilenameExactly(filename, LastOf(source));
    if exists i :: 0 <= i < |c| && !Unusable(c[i]) {
      var lo, hi :| WrittenBetween(c, first, lo, hi);
      WrittenIsGood(c, first, lo, hi);
      SafeFilenameKeeps(first, "artifact.bin");
    }
  }

  /** A file named "._" keeps that name when moved without another, and can be referred to. */
  lemma HiddenMoveStaysHidden(config: Config, source: Path)
    requires !config.gcs && LastOf(source) == "._"
    ensures MovedName(config, "", source) == "._" && Storable("._")
  {
    var name := "._";
    assert FirstPart(name) == 2 && name[..2] == name && |name| != |"."|;
    assert Parts(name) == [name];
    assert Trim("._", IsPySpace) == "._";
    assert Collapse("._", false) == "._";
    assert Trim("._", IsEdge) == "";
  }

  /** A file whose name is a space keeps it too, and its reference does not lead to it. */
  lemma BlankMoveIsLost(config: Config, bucket: string, source: Path)
    requires !config.gcs && bucket in config.roots && bucket != "" && '/' !in bucket && LastOf(source) == " "
    ensures MovedName(config, "", source) == " "
    ensures Locate(config, LocalRef(bucket, [] + [" "])) != At(File(config.roots[bucket] + [] + [" "]))
  {
    var name := " ";
    assert FirstPart(name) == 1 && name[..1] == name && name[0] != '.';
    assert Parts(name) == [name];
    assert Trim(name, IsPySpace) == "" by { assert name[1..] == ""; }
    assert SafeFilename(name, name) == name;
    LocalRefExactly(config, bucket, [], name);
  }

  // ---------- every run reads back ----------

  lemma WriteStepKeeps(config: Config, a: Moment, b: Moment)
    requires Deployed(config) && Sane(config, a) && WriteStep(config, a, b)
    ensures Sane(config, b)
  {
    var bucket, dir, name, chosen, content, gone, obj :|
      && Wrote(config, a.store, b.store, bucket, dir, name, chosen, content, gone, obj)
      && Addressable(config, bucket, dir, name)
      && b.live == Sparing(Locator(config), a.live, gone)[obj.ref := (obj.filename, content)];
    WriteKeepsCoherent(config, a.store, b.store, a.live, bucket, dir, name, chosen, content, gone, obj);
  }

  lemma StrayStepKeeps(config: Config, a: Moment, b: Moment)
    requires Sane(config, a) && StrayStep(config, a, b)
    ensures Sane(config, b)
  {
    var gone :|
      && b.live == Sparing(Locator(config), a.live, gone)
      && (|| (b.store.files == a.store.files - gone && b.store.blobs == a.store.blobs)
          || exists place, content, made :: place !in Taken(a.store) && b.store == Put(a.store, place, content, gone, made));
    if place, content, made :| place !in Taken(a.store) && b.store == Put(a.store, place, content, gone, made) {
      NotTaken(a.store, place);
      PutStrayKeeps(Locator(config), Issuer(config), a.store, a.live, place, content, gone, made);
    } else {
      GoneKeeps(Locator(config), Issuer(config), a.store, b.store, a.live, gone);
    }
  }

  lemma StepKeeps(config: Config, a: Moment, b: Moment)
    requires Deployed(config) && Sane(config, a) && StoreStep(config, a, b)
    ensures Sane(config, b)
  {
    if WriteStep(config, a, b) {
      WriteStepKeeps(config, a, b);
    } else if DeleteStep(config, a, b) {
      var text :| b.store == Delete(config, a.store, text).0 && b.live == AfterDelete(config, a.store, a.live, text);
      DeleteKeepsCoherent(config, a.store, a.live, text);
    } else {
      StrayStepKeeps(config, a, b);
    }
  }

  /** A run from an empty ledger. */
  ghost predicate IsRun(config: Config, run: seq<Moment>) {
    run != [] &&
    if |run| == 1 then run[0].live == map[]
    else IsRun(config, run[..|run| - 1]) && StoreStep(config, run[|run| - 2], run[|run| - 1])
  }

  lemma {:induction false} RunSane(config: Config, run: seq<Moment>)
    requires Deployed(config) && IsRun(config, run)
    ensures Sane(config, run[|run| - 1])
  {
    if |run| > 1 {
      var front := run[..|run| - 1];
      RunSane(config, front);
      assert front[|front| - 1] == run[|run| - 2];
      StepKeeps(config, run[|run| - 2], run[|run| - 1]);
    }
  }

  /**
   * Over every run of writes, moves and deletes, failed ones among them, on either backend and from any store,
   * every reference that was returned and whose object was not deleted or moved since reads back its filename
   * and bytes.
   */
  lemma EveryRunReadsBack(config: Config, run: seq<Moment>, text: string)
    requires Deployed(config) && IsRun(config, run) && text in run[|run| - 1].live
    ensures ReadBytes(config, run[|run| - 1].store, text) == Ok(run[|run| - 1].live[text])
  {
    RunSane(config, run);
    CoherentReads(config, run[|run| - 1].store, run[|run| - 1].live, text);
  }
}
