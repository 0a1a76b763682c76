/** Storage references: printing, parsing and locating (backend/app/storage.py). */
module StorageRefs {
  import opened Wrappers
  import opened Text
  import opened StorageNames
  import opened Seqs
  import Decimal

  type Path = seq<string>

  /** The configuration: backend, GCS bucket and prefix, and the directory of each local bucket. */
  datatype Config = Config(gcs: bool, gcsBucket: string, objectPrefix: string, roots: map<string, Path>)

  /** Where an object lives: an absolute path, or a blob of the configured GCS bucket. */
  datatype Place = File(path: Path) | Blob(name: string)

  datatype Error = ArtifactNotFound | NotConfigured | SourceNotFound | OutsideBucket | OsError

  // ---------- printing ----------

  predicate IsSlash(c: char) {
    c == '/'
  }

  function LocalRef(bucket: string, rel: Path): string {
    "local://" + bucket + "/" + Posix(rel)
  }

  function GcsRef(config: Config, objectName: string): string {
    "gcs://" + config.gcsBucket + "/" + TrimLeft(objectName, IsSlash)
  }

  /** The object class and directory of each bucket on GCS. */
  function GcsDirectory(bucket: string): Option<Path> {
    if bucket == "generated_artifacts" then Some(["artifacts", "generated_artifacts"])
    else if bucket == "items_unregistered" then Some(["staging", "items_unregistered"])
    else if bucket == "items_registered_archives" then Some(["archives", "items_registered"])
    else if bucket == "orders_registered_csv" then Some(["archives", "orders_registered_csv"])
    else if bucket == "orders_registered_pdf" then Some(["archives", "orders_registered_pdf"])
    else None
  }

  function ObjectName(config: Config, directory: Path, rel: Path): string {
    var prefix := Trim(config.objectPrefix, IsSlash);
    var parts := (if prefix == "" then "" else prefix + "/") + Posix(directory);
    Trim(parts + "/" + TrimLeft(Posix(rel), IsSlash), IsSlash)
  }

  // ---------- parsing ----------

  predicate IsAlnum(c: char) {
    'A' <= c <= 'Z' || 'a' <= c <= 'z' || '0' <= c <= '9'
  }

  function AlnumLen(s: string): (n: nat)
    ensures n <= |s|
  {
    if s == "" || !IsAlnum(s[0]) then 0 else 1 + AlnumLen(s[1..])
  }

  function Lower(s: string): (t: string)
    ensures |t| == |s|
    ensures forall i :: 0 <= i < |s| ==> t[i] == if 'A' <= s[i] <= 'Z' then s[i] - 'A' + 'a' else s[i]
  {
    seq(|s|, i requires 0 <= i < |s| => if 'A' <= s[i] <= 'Z' then s[i] - 'A' + 'a' else s[i])
  }

  datatype Ref = Ref(scheme: string, bucket: string, path: string)

  /** bucket/path, with no slash in the bucket and no newline in the path. */
  function ParseRest(t: string): Option<(string, string)> {
    var j := FirstPart(t);
    if j == 0 || j == |t| then None
    else
      var path := t[j + 1..];
      if path == "" || '\n' in path || Trim(path, IsPySpace) == "" then None else Some((t[..j], path))
  }

  /** scheme://bucket/path, with an alphanumeric scheme. */
  function ParseTrimmed(s: string): Option<Ref> {
    var i := AlnumLen(s);
    if i == 0 || |s| < i + 3 || s[i..i + 3] != "://" then None
    else
      var rest := ParseRest(s[i + 3..]);
      if rest.None? then None else Some(Ref(Lower(s[..i]), rest.value.0, rest.value.1))
  }

  function ParseRef(text: string): Option<Ref> {
    ParseTrimmed(Trim(text, IsPySpace))
  }

  // ---------- locating ----------

  /** The number of slashes pathlib keeps at the front: two stay two, more become one. */
  function Anchor(s: string): string {
    if s == "" || s[0] != '/' then ""
    else if |s| > 1 && s[1] == '/' && (|s| == 2 || s[2] != '/') then "//"
    else "/"
  }

  function AsPosix(s: string): string {
    if Anchor(s) == "" && Parts(s) == [] then "." else Anchor(s) + Posix(Parts(s))
  }

  /** Path.resolve() without symbolic links: ".." steps up. */
  function Resolve(base: Path, rel: Path): Path
    decreases |rel|
  {
    if rel == [] then base
    else if rel[0] == ".." then Resolve(if base == [] then [] else base[..|base| - 1], rel[1..])
    else Resolve(base + [rel[0]], rel[1..])
  }

  /** What a reference denotes; Nowhere is a local one that does not resolve under its root. */
  datatype Located = At(place: Place) | Nowhere | Unknown

  function LocateParsed(config: Config, r: Ref): Located {
    if r.scheme == "local" then
      if config.gcs || r.bucket !in config.roots then Nowhere
      else
        var root := config.roots[r.bucket];
        var candidate := Resolve(if Anchor(r.path) == "" then root else [], Parts(r.path));
        if root <= candidate then At(File(candidate)) else Nowhere
    else if r.scheme == "gcs" && r.bucket == config.gcsBucket then At(Blob(AsPosix(r.path)))
    else Unknown
  }

  function Locate(config: Config, text: string): Located {
    var parsed := ParseRef(text);
    if parsed.None? then Unknown else LocateParsed(config, parsed.value)
  }

  // ---------- a printed reference parses back ----------

  lemma {:induction false} AlnumLenOf(s: string, rest: string)
    requires forall i :: 0 <= i < |s| ==> IsAlnum(s[i])
    requires rest == "" || !IsAlnum(rest[0])
    ensures AlnumLen(s + rest) == |s|
  {
    if s == "" {
      assert s + rest == rest;
    } else {
      assert (s + rest)[1..] == s[1..] + rest;
      AlnumLenOf(s[1..], rest);
    }
  }

  lemma ParseRestBuilt(bucket: string, path: string)
    requires bucket != "" && '/' !in bucket && path != "" && !IsPySpace(path[|path| - 1])
    ensures ParseRest(bucket + "/" + path) == if '\n' in path then None else Some((bucket, path))
  {
    var t := bucket + "/" + path;
    assert t == bucket + ("/" + path);
    FirstPartOf(bucket, "/" + path);
    assert t[|bucket| + 1..] == path && t[..|bucket|] == bucket;
    TrimNotEmpty(path);
  }

  lemma ParseTrimmedBuilt(scheme: string, rest: string)
    requires scheme == "local" || scheme == "gcs"
    ensures ParseTrimmed(scheme + "://" + rest)
            == if ParseRest(rest).None? then None else Some(Ref(scheme, ParseRest(rest).value.0, ParseRest(rest).value.1))
  {
    var s := scheme + "://" + rest;
    assert s == scheme + ("://" + rest);
    assert forall i :: 0 <= i < |scheme| ==> IsAlnum(scheme[i]);
    AlnumLenOf(scheme, "://" + rest);
    assert s[|scheme|..|scheme| + 3] == "://" && s[|scheme| + 3..] == rest && s[..|scheme|] == scheme;
    assert Lower(scheme) == scheme;
  }

  /** scheme, bucket and path come back as printed, if and only if the path holds no newline. */
  lemma ParseBuiltExactly(scheme: string, bucket: string, path: string)
    requires scheme == "local" || scheme == "gcs"
    requires bucket != "" && '/' !in bucket
    requires path != "" && !IsPySpace(path[|path| - 1])
    ensures ParseRef(scheme + "://" + bucket + "/" + path)
            == if '\n' in path then None else Some(Ref(scheme, bucket, path))
  {
    var tail := bucket + "/" + path;
    var s := scheme + "://" + tail;
    assert s == scheme + "://" + bucket + "/" + path;
    assert s[0] == scheme[0] && s[|s| - 1] == path[|path| - 1];
    assert !IsPySpace(scheme[0]);
    TrimKeeps(s, IsPySpace);
    ParseRestBuilt(bucket, path);
    ParseTrimmedBuilt(scheme, tail);
  }

  lemma TrimNotEmpty(path: string)
    requires path != "" && !IsPySpace(path[|path| - 1])
    ensures Trim(path, IsPySpace) != ""
  {
    TrimLeftKeepsLast(path);
  }

  lemma {:induction false} TrimLeftKeepsLast(path: string)
    requires path != "" && !IsPySpace(path[|path| - 1])
    ensures TrimLeft(path, IsPySpace) != ""
    ensures TrimLeft(path, IsPySpace)[|TrimLeft(path, IsPySpace)| - 1] == path[|path| - 1]
  {
    if IsPySpace(path[0]) {
      TrimLeftKeepsLast(path[1..]);
    }
  }

  /** A file name that a reference can end with. */
  predicate Referable(n: string) {
    IsPart(n) && n != ".." && '\n' !in n && !IsPySpace(n[|n| - 1])
  }

  /** A file name that starts as those of temporary files do. */
  predicate Temporary(n: string) {
    |n| >= 2 && n[0] == '.' && n[1] == 't'
  }

  /** And one that no temporary file shares. */
  predicate Storable(n: string) {
    Referable(n) && !Temporary(n)
  }

  lemma GoodIsStorable(n: string)
    requires GoodName(n)
    ensures Storable(n) && n[0] != '.'
  {
    GoodNameIsPart(n);
    assert n[0] != '.';
  }

  lemma NumberedStorable(n: string, k: nat)
    requires Storable(n)
    ensures Storable(Numbered(n, k))
  {
    NumberedReferable(n, k);
    NumberedStart(n, k);
  }

  lemma NumberedReferable(n: string, k: nat)
    requires Referable(n)
    ensures Referable(Numbered(n, k))
  {
    var m, x := Numbered(n, k), Decimal.OfNat(k);
    assert m == Stem(n) + "_" + x + Suffix(n);
    assert Decimal.IsDigit(x[|x| - 1]);
    assert n == Stem(n) + Suffix(n);
    assert m[|m| - 1] == if Suffix(n) == "" then x[|x| - 1] else n[|n| - 1];
    assert '_' in m by { assert m[|Stem(n)|] == '_'; }
    NumberedChars(n, k);
  }

  /** The number comes after the first two characters, or its underscore is the second. */
  lemma NumberedStart(n: string, k: nat)
    requires n != ""
    ensures Temporary(Numbered(n, k)) ==> Temporary(n)
  {
    var m, i := Numbered(n, k), |Stem(n)|;
    assert m == Stem(n) + ("_" + Decimal.OfNat(k) + Suffix(n)) && m[i] == '_';
    assert n == Stem(n) + Suffix(n);
    assert i >= 2 ==> m[0] == n[0] && m[1] == n[1];
  }

  lemma NumberedChars(n: string, k: nat)
    ensures forall c :: c in Numbered(n, k) ==> c in n || c == '_' || Decimal.IsDigit(c)
  {
    assert Numbered(n, k) == Stem(n) + "_" + Decimal.OfNat(k) + Suffix(n);
    assert n == Stem(n) + Suffix(n);
  }

  /** Subdirectories without "..", relative to the bucket. */
  predicate PlainDirectory(dir: Path) {
    AreParts(dir) && ".." !in dir
  }

  lemma {:induction false} ResolvePlain(base: Path, rel: Path)
    requires ".." !in rel
    ensures Resolve(base, rel) == base + rel
    decreases |rel|
  {
    if rel != [] {
      assert base + [rel[0]] + rel[1..] == base + rel;
      ResolvePlain(base + [rel[0]], rel[1..]);
    } else {
      assert base + rel == base;
    }
  }

  lemma RelativePosix(rel: Path)
    requires AreParts(rel) && rel != []
    ensures Anchor(Posix(rel)) == "" && Parts(Posix(rel)) == rel
    ensures AsPosix(Posix(rel)) == Posix(rel)
  {
    PosixEnds(rel);
    PartsOfPosix(rel);
    assert rel[0][0] != '/' by { assert rel[0][0] in rel[0]; }
  }

  lemma PathText(dir: Path, name: string)
    requires PlainDirectory(dir) && IsPart(name) && name != ".."
    ensures var rel, text := dir + [name], Posix(dir + [name]);
            && AreParts(rel) && ".." !in rel && LastOf(rel) == name
            && text != "" && text[|text| - 1] == name[|name| - 1]
            && ('\n' in text <==> '\n' in name || exists i :: 0 <= i < |dir| && '\n' in dir[i])
  {
    var rel := dir + [name];
    PosixEnds(rel);
    assert LastOf(rel) == name && rel[|dir|] == name;
    if i :| 0 <= i < |dir| && '\n' in dir[i] {
      assert !NoNewline(rel[i]);
    } else if '\n' in name {
      assert !NoNewline(rel[|dir|]);
    } else {
      assert forall i :: 0 <= i < |rel| ==> NoNewline(rel[i]);
    }
  }

  /** No component of the directory holds a newline. */
  predicate PlainLines(dir: Path) {
    forall i :: 0 <= i < |dir| ==> '\n' !in dir[i]
  }

  /**
   * A local reference leads to the file it was made for, if and only if no newline occurs in its path and its
   * name does not end with white space.
   */
  lemma LocalRefExactly(config: Config, bucket: string, dir: Path, name: string)
    requires !config.gcs && bucket in config.roots && bucket != "" && '/' !in bucket
    requires PlainDirectory(dir) && IsPart(name) && name != ".."
    ensures Locate(config, LocalRef(bucket, dir + [name])) == At(File(config.roots[bucket] + dir + [name]))
            <==> PlainLines(dir) && Referable(name)
  {
    var rel := dir + [name];
    PathText(dir, name);
    assert config.roots[bucket] + rel == config.roots[bucket] + dir + [name];
    if IsPySpace(name[|name| - 1]) {
      CutRefMisses(config, bucket, dir, name);
    } else {
      LocalRefParses(bucket, Posix(rel));
      LocateLocal(config, bucket, rel);
    }
  }

  // ---------- a name that ends with white space is cut off ----------

  lemma {:induction false} TrimRightAfter(front: string, s: string)
    requires front != "" && !IsPySpace(front[|front| - 1])
    ensures TrimRight(front + s, IsPySpace) == front + TrimRight(s, IsPySpace)
  {
    if s == "" {
      assert front + s == front;
    } else if IsPySpace(s[|s| - 1]) {
      assert (front + s)[..|front + s| - 1] == front + s[..|s| - 1];
      TrimRightAfter(front, s[..|s| - 1]);
    }
  }

  function DirText(dir: Path): string {
    if dir == [] then "" else Posix(dir) + "/"
  }

  lemma DirTextThen(dir: Path, name: string)
    requires PlainDirectory(dir) && IsPart(name)
    ensures Posix(dir + [name]) == DirText(dir) + name
    ensures dir != [] ==> DirText(dir)[0] == dir[0][0] && dir[0][0] != '/' && DirText(dir)[|DirText(dir)| - 1] == '/'
  {
    if dir == [] {
      assert dir + [name] == [name];
    } else {
      PosixConcat(dir, [name]);
      PosixEnds(dir);
      assert dir[0][0] in dir[0];
    }
  }

  /** The trimmed reference: the same with the white space gone from the end of the name. */
  lemma TrimmedRef(bucket: string, dir: Path, name: string)
    requires PlainDirectory(dir) && IsPart(name)
    ensures Trim(LocalRef(bucket, dir + [name]), IsPySpace)
            == "local" + "://" + (bucket + "/" + (DirText(dir) + TrimRight(name, IsPySpace)))
  {
    DirTextThen(dir, name);
    Assembled(bucket, DirText(dir), name);
    Assembled(bucket, DirText(dir), TrimRight(name, IsPySpace));
    TrimmedText("local" + "://" + (bucket + "/" + DirText(dir)), name);
  }

  lemma Assembled(bucket: string, d: string, n: string)
    ensures "local://" + bucket + "/" + (d + n) == "local" + "://" + (bucket + "/" + d) + n
    ensures "local" + "://" + (bucket + "/" + d) + n == "local" + "://" + (bucket + "/" + (d + n))
  {
    assert "local://" == "local" + "://";
  }

  lemma TrimmedText(front: string, name: string)
    requires front != "" && !IsPySpace(front[0]) && !IsPySpace(front[|front| - 1])
    ensures Trim(front + name, IsPySpace) == front + TrimRight(name, IsPySpace)
  {
    assert (front + name)[0] == front[0];
    TrimRightAfter(front, name);
  }

  lemma {:induction false} ResolveConcat(base: Path, a: Path, b: Path)
    ensures Resolve(base, a + b) == Resolve(Resolve(base, a), b)
    decreases |a|
  {
    if a == [] {
      assert a + b == b;
    } else {
      assert (a + b)[1..] == a[1..] + b;
      ResolveConcat(if a[0] == ".." then (if base == [] then [] else base[..|base| - 1]) else base + [a[0]], a[1..], b);
    }
  }

  lemma CutPathParts(dir: Path, cut: string)
    requires PlainDirectory(dir) && '/' !in cut
    ensures Parts(DirText(dir) + cut) == dir + Component(cut)
  {
    PartsFront(cut, "");
    if dir == [] {
      assert DirText(dir) + cut == cut && dir + Component(cut) == Component(cut);
    } else {
      PartsConcat(Posix(dir), cut);
      PartsOfPosix(dir);
    }
  }

  lemma Cancel(front: Path, a: Path, b: Path)
    ensures front + a == front + b ==> a == b
  {
    assert (front + a)[|front|..] == a && (front + b)[|front|..] == b;
  }

  lemma CutPathElsewhere(root: Path, dir: Path, name: string, cut: string)
    requires PlainDirectory(dir) && cut != name
    ensures Resolve(root, dir + Component(cut)) != root + dir + [name]
  {
    if cut == ".." {
      ResolveConcat(root, dir, [".."]);
      ResolvePlain(root, dir);
      assert |Resolve(root + dir, [".."])| <= |root + dir| by { assert [".."][1..] == []; }
    } else {
      ResolvePlain(root, dir + Component(cut));
      assert root + (dir + Component(cut)) == root + dir + Component(cut);
      Cancel(root + dir, Component(cut), [name]);
    }
  }

  /** So the reference leads elsewhere or nowhere. */
  lemma CutRefMisses(config: Config, bucket: string, dir: Path, name: string)
    requires !config.gcs && bucket in config.roots && bucket != "" && '/' !in bucket
    requires PlainDirectory(dir) && IsPart(name) && IsPySpace(name[|name| - 1])
    ensures Locate(config, LocalRef(bucket, dir + [name])) != At(File(config.roots[bucket] + dir + [name]))
  {
    var cut := TrimRight(name, IsPySpace);
    TrimRightSpec(name, IsPySpace);
    assert cut != name && cut <= name;
    TrimmedRef(bucket, dir, name);
    ParseCut(bucket, dir, name, cut);
    LocateCut(config, bucket, dir, name, cut);
  }

  lemma ParseCut(bucket: string, dir: Path, name: string, cut: string)
    requires bucket != "" && '/' !in bucket && PlainDirectory(dir) && IsPart(name) && cut <= name
    requires cut == "" || !IsPySpace(cut[|cut| - 1])
    ensures var r, path := ParseTrimmed("local" + "://" + (bucket + "/" + (DirText(dir) + cut))), DirText(dir) + cut;
            r.None? || (path != "" && r == Some(Ref("local", bucket, path)))
  {
    var path := DirText(dir) + cut;
    ParseTrimmedBuilt("local", bucket + "/" + path);
    if path == "" {
      NoPath(bucket);
    } else {
      CutPathShape(dir, name, cut);
      ParseRestBuilt(bucket, path);
    }
  }

  lemma LocateCut(config: Config, bucket: string, dir: Path, name: string, cut: string)
    requires !config.gcs && bucket in config.roots && PlainDirectory(dir) && IsPart(name) && cut <= name && cut != name
    requires cut == "" || !IsPySpace(cut[|cut| - 1])
    ensures var path := DirText(dir) + cut;
            path != "" ==> LocateParsed(config, Ref("local", bucket, path)) != At(File(config.roots[bucket] + dir + [name]))
  {
    var path := DirText(dir) + cut;
    if path != "" {
      CutPathShape(dir, name, cut);
      CutPathParts(dir, cut);
      CutPathElsewhere(config.roots[bucket], dir, name, cut);
    }
  }

  lemma NoPath(bucket: string)
    requires '/' !in bucket
    ensures ParseRest(bucket + "/" + "").None?
  {
    var t := bucket + "/" + "";
    assert t == bucket + "/";
    FirstPartOf(bucket, "/");
    assert t[|bucket| + 1..] == "";
  }

  lemma CutPathShape(dir: Path, name: string, cut: string)
    requires PlainDirectory(dir) && IsPart(name) && cut <= name && DirText(dir) + cut != ""
    requires cut == "" || !IsPySpace(cut[|cut| - 1])
    ensures var path := DirText(dir) + cut; !IsPySpace(path[|path| - 1]) && Anchor(path) == ""
  {
    DirTextThen(dir, name);
    assert name[0] in name;
    if dir == [] {
      NothingBefore(cut);
    } else {
      Ends(DirText(dir), cut);
    }
  }

  lemma Ends(front: string, back: string)
    requires front != ""
    ensures var s := front + back; s[0] == front[0] && s[|s| - 1] == if back == "" then front[|front| - 1] else back[|back| - 1]
  {
  }

  lemma LocalRefParses(bucket: string, path: string)
    requires bucket != "" && '/' !in bucket && path != "" && !IsPySpace(path[|path| - 1])
    ensures ParseRef("local://" + bucket + "/" + path) == if '\n' in path then None else Some(Ref("local", bucket, path))
  {
    assert "local" + "://" == "local://";
    ParseBuiltExactly("local", bucket, path);
  }

  lemma LocateLocal(config: Config, bucket: string, rel: Path)
    requires !config.gcs && bucket in config.roots && AreParts(rel) && rel != [] && ".." !in rel
    ensures LocateParsed(config, Ref("local", bucket, Posix(rel))) == At(File(config.roots[bucket] + rel))
  {
    RelativePosix(rel);
    ResolvePlain(config.roots[bucket], rel);
  }

  /** A line break in the subdirectory: the reference that is returned leads nowhere. */
  lemma LineBreakIsLost(config: Config, bucket: string, name: string)
    requires !config.gcs && bucket in config.roots && bucket != "" && '/' !in bucket && Referable(name)
    ensures Locate(config, LocalRef(bucket, ["a\nb", name])) != At(File(config.roots[bucket] + ["a\nb"] + [name]))
  {
    var dir := ["a\nb"];
    assert '\n' in dir[0] && dir + [name] == ["a\nb", name];
    LocalRefExactly(config, bucket, dir, name);
  }

  // ---------- the same for GCS ----------

  function Component(p: string): seq<string> {
    if p == "" || p == "." then [] else [p]
  }

  lemma PartsFront(p: string, rest: string)
    requires '/' !in p
    ensures Parts(p + "/" + rest) == Component(p) + Parts(rest)
    ensures Parts(p) == Component(p)
  {
    var s := p + "/" + rest;
    assert s == p + ("/" + rest);
    FirstPartOf(p, "/" + rest);
    assert s[|p| + 1..] == rest && s[..|p|] == p;
    FirstPartOf(p, "");
    assert p + "" == p;
  }

  lemma {:induction false} PartsConcat(a: string, b: string)
    ensures Parts(a + "/" + b) == Parts(a) + Parts(b)
    decreases |a|
  {
    var n := FirstPart(a);
    if n == |a| {
      PartsFront(a, b);
    } else {
      PartsConcat(a[n + 1..], b);
      Cut(a, b, n);
      PartsConcatCut(a, a + "/" + b, a[..n], a[n + 1..], a[n + 1..] + "/" + b, Parts(b));
    }
  }

  lemma PartsConcatCut(a: string, ab: string, p: string, rest: string, rb: string, more: seq<string>)
    requires '/' !in p && a == p + "/" + rest && ab == p + "/" + rb
    requires Parts(rb) == Parts(rest) + more
    ensures Parts(ab) == Parts(a) + more
  {
    PartsFront(p, rest);
    PartsFront(p, rb);
    Associates(Component(p), Parts(rest), more);
  }

  lemma Cut(a: string, b: string, n: nat)
    requires n < |a| && a[n] == '/' && forall i :: 0 <= i < n ==> a[i] != '/'
    ensures '/' !in a[..n]
    ensures a == a[..n] + "/" + a[n + 1..]
    ensures a + "/" + b == a[..n] + "/" + (a[n + 1..] + "/" + b)
  {
  }

  /** The configured prefix is printed as pathlib would print it. */
  predicate NormalPrefix(prefix: string) {
    prefix == "" || Posix(Parts(prefix)) == prefix
  }

  lemma PlainObjectName(config: Config, directory: Path, rel: Path)
    requires AreParts(directory) && directory != [] && AreParts(rel) && rel != []
    requires !IsSlash(LastOf(rel)[|LastOf(rel)| - 1])
    ensures var prefix := Trim(config.objectPrefix, IsSlash);
            ObjectName(config, directory, rel) == (if prefix == "" then "" else prefix + "/") + Posix(directory + rel)
  {
    var prefix := Trim(config.objectPrefix, IsSlash);
    TrimSpec(config.objectPrefix, IsSlash);
    PosixConcat(directory, rel);
    PosixEnds(directory);
    PosixEnds(rel);
    assert directory[0][0] != '/' by { assert directory[0][0] in directory[0]; }
    assert rel[0][0] != '/' by { assert rel[0][0] in rel[0]; }
    FrontEnds(prefix, Posix(directory));
    TrimmedJoin((if prefix == "" then "" else prefix + "/") + Posix(directory), Posix(rel));
    Associates(if prefix == "" then "" else prefix + "/", Posix(directory), "/" + Posix(rel));
    Associates(Posix(directory), "/", Posix(rel));
  }

  lemma FrontEnds(prefix: string, p: string)
    requires (prefix == "" || prefix[0] != '/') && p != "" && p[0] != '/'
    ensures var front := (if prefix == "" then "" else prefix + "/") + p; front != "" && front[0] != '/'
  {
  }

  lemma TrimmedJoin(front: string, tail: string)
    requires front != "" && front[0] != '/' && tail != "" && tail[0] != '/' && tail[|tail| - 1] != '/'
    ensures Trim(front + "/" + TrimLeft(tail, IsSlash), IsSlash) == front + "/" + tail
    ensures front + "/" + tail == front + ("/" + tail)
  {
    assert TrimLeft(tail, IsSlash) == tail;
    Ends(front, "/" + tail);
    Associates(front, "/", tail);
    TrimKeeps(front + "/" + tail, IsSlash);
  }

  lemma GcsAsPosix(prefix: string, rel: Path)
    requires prefix == "" || prefix[0] != '/'
    requires AreParts(rel) && rel != []
    ensures var name := (if prefix == "" then "" else prefix + "/") + Posix(rel);
            AsPosix(name) == name <==> NormalPrefix(prefix)
  {
    var name := (if prefix == "" then "" else prefix + "/") + Posix(rel);
    PartsOfPosix(rel);
    RelativePosix(rel);
    if prefix != "" {
      PartsConcat(prefix, Posix(rel));
      assert Parts(name) == Parts(prefix) + rel;
      assert name[0] == prefix[0];
      if Parts(prefix) == [] {
        assert Parts(prefix) + rel == rel;
        assert Posix([]) != prefix;
        assert |Posix(rel)| != |name|;
      } else {
        PosixConcat(Parts(prefix), rel);
        assert AsPosix(name) == Posix(Parts(prefix)) + "/" + Posix(rel);
        if AsPosix(name) == name {
          assert |Posix(Parts(prefix))| == |prefix|;
          assert name[..|prefix|] == prefix;
          assert (Posix(Parts(prefix)) + "/" + Posix(rel))[..|prefix|] == Posix(Parts(prefix));
        }
      }
    } else {
      assert name == Posix(rel);
    }
  }

  lemma ObjectNameShape(config: Config, directory: Path, dir: Path, name: string)
    requires AreParts(directory) && directory != [] && PlainDirectory(dir) && Referable(name)
    ensures var objectName, prefix := ObjectName(config, directory, dir + [name]), Trim(config.objectPrefix, IsSlash);
            && objectName == (if prefix == "" then "" else prefix + "/") + Posix(directory + dir + [name])
            && AreParts(directory + dir + [name]) && (prefix == "" || prefix[0] != '/')
            && objectName != "" && objectName[0] != '/' && objectName[|objectName| - 1] == name[|name| - 1]
  {
    var rel, prefix := dir + [name], Trim(config.objectPrefix, IsSlash);
    assert LastOf(rel) == name && name[|name| - 1] != '/' by { assert name[|name| - 1] in name; }
    PlainObjectName(config, directory, rel);
    TrimSpec(config.objectPrefix, IsSlash);
    Associates(directory, dir, [name]);
    JoinedPath(directory, dir, name);
    var path := Posix(directory + dir + [name]);
    if prefix == "" {
      NothingBefore(path);
    } else {
      Ends(prefix + "/", path);
      Ends(prefix, "/");
    }
  }

  lemma JoinedPath(directory: Path, dir: Path, name: string)
    requires AreParts(directory) && directory != [] && AreParts(dir) && IsPart(name)
    ensures var all := directory + dir + [name];
            && AreParts(all) && Posix(all) != "" && Posix(all)[0] != '/'
            && Posix(all)[|Posix(all)| - 1] == name[|name| - 1]
  {
    var all := directory + dir + [name];
    PosixEnds(all);
    assert LastOf(all) == name && all[0] == directory[0];
    assert all[0][0] in all[0];
  }

  lemma GcsRefParses(bucket: string, path: string)
    requires bucket != "" && '/' !in bucket && path != "" && !IsPySpace(path[|path| - 1])
    ensures ParseRef("gcs://" + bucket + "/" + path) == if '\n' in path then None else Some(Ref("gcs", bucket, path))
  {
    assert "gcs" + "://" == "gcs://";
    ParseBuiltExactly("gcs", bucket, path);
  }

  /** Without a line break, it leads to the name as pathlib prints it. */
  lemma GcsRefLeads(config: Config, directory: Path, dir: Path, name: string)
    requires config.gcsBucket != "" && '/' !in config.gcsBucket
    requires AreParts(directory) && directory != [] && PlainDirectory(dir) && Referable(name)
    ensures var objectName := ObjectName(config, directory, dir + [name]);
            Locate(config, GcsRef(config, objectName))
            == if '\n' in objectName then Unknown else At(Blob(AsPosix(objectName)))
  {
    var objectName := ObjectName(config, directory, dir + [name]);
    ObjectNameShape(config, directory, dir, name);
    assert TrimLeft(objectName, IsSlash) == objectName;
    GcsRefParses(config.gcsBucket, objectName);
    assert LocateParsed(config, Ref("gcs", config.gcsBucket, objectName)) == At(Blob(AsPosix(objectName)));
  }

  lemma PrefixedParts(prefix: string, all: Path)
    requires AreParts(all) && all != []
    ensures var n := (if prefix == "" then "" else prefix + "/") + Posix(all);
            Parts(n) != [] && LastOf(Parts(n)) == LastOf(all)
  {
    PartsOfPosix(all);
    if prefix == "" {
      NothingBefore(Posix(all));
    } else {
      PartsConcat(prefix, Posix(all));
    }
  }

  lemma AsPosixParts(n: string)
    requires n == "" || n[0] != '/'
    ensures Parts(n) != [] ==> Parts(AsPosix(n)) == Parts(n)
  {
    PartsAreParts(n);
    PartsOfPosix(Parts(n));
    NothingBefore(Posix(Parts(n)));
  }

  /** Either way its last component is the name. */
  lemma ObjectNameLast(config: Config, directory: Path, dir: Path, name: string)
    requires AreParts(directory) && directory != [] && PlainDirectory(dir) && Referable(name)
    ensures var objectName := ObjectName(config, directory, dir + [name]);
            LastOf(Parts(objectName)) == name && LastOf(Parts(AsPosix(objectName))) == name
  {
    ObjectNameShape(config, directory, dir, name);
    PrefixedParts(Trim(config.objectPrefix, IsSlash), directory + dir + [name]);
    AsPosixParts(ObjectName(config, directory, dir + [name]));
  }

  /** A GCS reference leads to the blob it was made for, if and only if the prefix is normal and no newline occurs. */
  lemma GcsRefExactly(config: Config, directory: Path, dir: Path, name: string)
    requires config.gcsBucket != "" && '/' !in config.gcsBucket
    requires AreParts(directory) && directory != [] && PlainDirectory(dir) && Referable(name)
    ensures var objectName := ObjectName(config, directory, dir + [name]);
            Locate(config, GcsRef(config, objectName)) == At(Blob(objectName))
            <==> NormalPrefix(Trim(config.objectPrefix, IsSlash)) && '\n' !in objectName
  {
    GcsRefLeads(config, directory, dir, name);
    ObjectNameShape(config, directory, dir, name);
    GcsAsPosix(Trim(config.objectPrefix, IsSlash), directory + dir + [name]);
  }

  /** No bucket's directory on GCS lies in another's. */
  lemma GcsDirectoriesApart(a: string, b: string)
    requires GcsDirectory(a).Some? && GcsDirectory(b).Some? && GcsDirectory(a).value <= GcsDirectory(b).value
    ensures a == b
  {
    var x, y := GcsDirectory(a).value, GcsDirectory(b).value;
    assert x[0] == y[0] && x[1] == y[1];
    assert x[1][0] == y[1][0] && |x[1]| == |y[1]| && |x[0]| == |y[0]|;
    assert |x[1]| > 18 ==> x[1][18] == y[1][18];
    LongWords();
  }

  lemma LongWords()
    ensures "orders_registered_csv"[18] == 'c' && "orders_registered_pdf"[18] == 'p'
    ensures |"orders_registered_csv"| == 21 && |"orders_registered_pdf"| == 21
    ensures |"generated_artifacts"| == 19 && |"items_unregistered"| == 18 && |"items_registered"| == 16
  {
  }
}
