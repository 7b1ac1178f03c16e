/** The file endpoints and the status report of the user backend
    (user_backend/app/api/v1/core/endpoints/files.py): upload validation,
    the collision-free name an upload is stored under, the ownership rule of
    download and delete, and the health aggregation of `system_status`. The
    file system is the set of names already taken in the upload directory. */
module Files {
  import opened Wrappers
  import opened Text
  import opened Seqs

  // ----- pathlib names -----

  /** The last position of `c` in `s` (`str.rfind`). */
  function LastIndex(s: string, c: char): (r: Option<nat>)
    ensures r.Some? ==> r.value < |s| && s[r.value] == c && forall j :: r.value < j < |s| ==> s[j] != c
    ensures r.None? <==> c !in s
  {
    if |s| == 0 then None
    else if s[|s| - 1] == c then Some(|s| - 1)
    else
      var r := LastIndex(s[..|s| - 1], c);
      assert forall j :: 0 <= j < |s| - 1 ==> s[..|s| - 1][j] == s[j];
      r
  }

  /** `Path(p).name`. pathlib drops the empty and the "." parts of a path,
      so the name is its last part that is neither, or "" when none is left. */
  function BaseName(p: string): (n: string)
    ensures '/' !in n && n != "."
    ensures '/' !in p ==> n == (if p == "." then "" else p)
    ensures |n| <= |p|
    decreases |p|
  {
    match LastIndex(p, '/')
    case None => if p == "." then "" else p
    case Some(i) =>
      var last := p[i + 1..];
      if last != "" && last != "." then last else BaseName(p[..i])
  }

  /** A separator at the end of a path does not change its name. */
  lemma TrailingSeparator(p: string)
    ensures BaseName(p + "/") == BaseName(p)
    ensures Suffix(p + "/") == Suffix(p) && Stem(p + "/") == Stem(p)
  {
    LastIndexAt(p + "/", '/', |p|);
    assert (p + "/")[..|p|] == p;
  }

  /** Nor does a "." part at its end. */
  lemma TrailingCurrentDir(p: string)
    ensures BaseName(p + "/.") == BaseName(p)
  {
    LastIndexAt(p + "/.", '/', |p|);
    assert (p + "/.")[..|p|] == p;
    assert (p + "/.")[|p| + 1..] == ".";
  }

  /** A plain name put under a directory is the name of the result. */
  lemma NameUnder(dir: string, name: string)
    requires '/' !in name && name != "" && name != "."
    ensures BaseName(dir + "/" + name) == name
  {
    var p := dir + "/" + name;
    assert forall j :: |dir| < j < |p| ==> p[j] == name[j - |dir| - 1];
    LastIndexAt(p, '/', |dir|);
    assert p[|dir| + 1..] == name;
  }

  /** The position of the dot that starts the suffix, if there is one: the
      last dot, neither first nor last in the name. */
  function SuffixDot(name: string): (r: Option<nat>)
    ensures r.Some? ==> 0 < r.value < |name| - 1 && name[r.value] == '.'
                        && forall j :: r.value < j < |name| ==> name[j] != '.'
  {
    match LastIndex(name, '.')
    case Some(i) => if 0 < i < |name| - 1 then Some(i) else None
    case None => None
  }

  /** The suffix of a file name: from its suffix dot on, or nothing. */
  function NameSuffix(name: string): (s: string)
    ensures s == "" || (s[0] == '.' && '.' !in s[1..] && |s| >= 2)
  {
    match SuffixDot(name)
    case Some(i) =>
      assert forall j :: 1 <= j < |name[i..]| ==> name[i..][j] == name[i + j];
      name[i..]
    case None => ""
  }

  /** The stem of a file name: up to its suffix dot, or all of it. */
  function NameStem(name: string): (s: string)
    ensures |s| <= |name| && s == name[..|s|]
  {
    match SuffixDot(name)
    case Some(i) => name[..i]
    case None => name
  }

  /** `Path(p).suffix` */
  function Suffix(p: string): (s: string)
    ensures s == "" || (s[0] == '.' && '.' !in s[1..] && |s| >= 2)
  {
    NameSuffix(BaseName(p))
  }

  /** `Path(p).stem` */
  function Stem(p: string): (s: string)
    ensures '/' !in s
  {
    var name := BaseName(p);
    assert forall j :: 0 <= j < |NameStem(name)| ==> NameStem(name)[j] == name[j];
    NameStem(name)
  }

  /** Stem and suffix put together give the name back. */
  lemma StemSuffix(p: string)
    ensures Stem(p) + Suffix(p) == BaseName(p)
  {
    NameSplits(BaseName(p));
  }

  lemma NameSplits(name: string)
    ensures NameStem(name) + NameSuffix(name) == name
  {
    match SuffixDot(name)
    case Some(i) =>
      assert name[..i] + name[i..] == name;
    case None =>
  }

  /** A name made of a non-empty stem and a dotted suffix splits back into them. */
  lemma {:induction false} SplitName(p: string, stem: string, suffix: string)
    requires BaseName(p) == stem + suffix
    requires stem != "" && |suffix| >= 2 && suffix[0] == '.' && '.' !in suffix[1..]
    ensures Stem(p) == stem && Suffix(p) == suffix
  {
    var name := stem + suffix;
    assert name[|stem|] == '.';
    forall j | |stem| < j < |name|
      ensures name[j] != '.'
    {
      assert name[j] == suffix[1..][j - |stem| - 1];
    }
    var last := LastIndex(name, '.');
    assert last.Some? && last.value == |stem|;
    assert SuffixDot(name) == Some(|stem|);
    assert name[..|stem|] == stem;
    assert name[|stem|..] == suffix;
  }

  // ----- validate_file -----

  /** `ALLOWED_EXTENSIONS` */
  const AllowedExtensions: set<string> := {".py", ".js", ".ts", ".html", ".css", ".json", ".yaml", ".yml",
                                           ".md", ".txt", ".sql", ".sh", ".dockerfile", ".env"}

  /** `MAX_FILE_SIZE`: 50 MiB. */
  const MaxFileSize: int := 50 * 1024 * 1024

  /** `listing` is the set of allowed extensions in the order Python happens
      to iterate it: each of them exactly once. */
  predicate ListsAllowed(listing: seq<string>) {
    NoDup(listing) && (forall x :: x in listing ==> x in AllowedExtensions)
    && forall x :: x in AllowedExtensions ==> x in listing
  }

  /** `validate_file`. `filename` is `None` when the client sent none, `size`
      when the upload carries no size; `listing` is the allowed extensions as
      the refusal message lists them. */
  function ValidateFile(filename: Option<string>, size: Option<int>, listing: seq<string>): (r: Result<(), HttpError>)
    requires ListsAllowed(listing)
    ensures filename.None? || filename.value == "" ==> r == Err(HttpError(400, "No filename provided"))
    ensures r.Ok? <==> filename.Some? && filename.value != "" && Lower(Suffix(filename.value)) in AllowedExtensions
                       && (size.None? || size.value <= MaxFileSize)
    ensures filename.Some? && filename.value != "" && Lower(Suffix(filename.value)) !in AllowedExtensions ==>
              r == Err(HttpError(400, "File type " + Lower(Suffix(filename.value)) + " not allowed. Allowed: "
                                      + Join(listing, ", ")))
    ensures r.Err? && r.error.status == 413 ==> size.Some? && size.value > MaxFileSize
    ensures filename.Some? && filename.value != "" && Lower(Suffix(filename.value)) in AllowedExtensions
            && size.Some? && size.value > MaxFileSize ==>
              r == Err(HttpError(413, "File too large. Maximum size: 50MB"))
  {
    if filename.None? || filename.value == "" then Err(HttpError(400, "No filename provided"))
    else
      var ext := Lower(Suffix(filename.value));
      if ext !in AllowedExtensions then
        Err(HttpError(400, "File type " + ext + " not allowed. Allowed: " + Join(listing, ", ")))
      else if size.Some? && size.value != 0 && size.value > MaxFileSize then
        Err(HttpError(413, "File too large. Maximum size: 50MB"))
      else Ok(())
  }

  /** The suffix is the text from the last dot of the name, provided some
      text precedes that dot. */
  lemma {:induction false} SuffixOfDotted(stem: string, ext: string)
    requires |stem| > 0 && '/' !in stem && '/' !in ext
    requires |ext| > 0 && '.' !in ext
    ensures Suffix(stem + "." + ext) == "." + ext
    ensures Stem(stem + "." + ext) == stem
  {
    var name := stem + "." + ext;
    assert '/' !in name && |name| >= 3;
    assert BaseName(name) == name;
    LastIndexAt(name, '.', |stem|);
  }

  /** A name whose only dot comes first, as ".env" itself, has no suffix, so
      it is refused whatever follows the dot. */
  lemma {:induction false} DotFileRefused(rest: string, size: Option<int>, listing: seq<string>)
    requires ListsAllowed(listing)
    requires '/' !in rest && '.' !in rest
    ensures Suffix("." + rest) == ""
    ensures ValidateFile(Some("." + rest), size, listing).Err?
  {
    DotFileNoSuffix(rest);
    assert Lower("") == "";
  }

  lemma DotFileNoSuffix(rest: string)
    requires '/' !in rest && '.' !in rest
    ensures Suffix("." + rest) == ""
  {
    var name := "." + rest;
    assert '/' !in name;
    if rest != "" {
      assert BaseName(name) == name;
      LastIndexAt(name, '.', 0);
    }
  }

  /** A separator after a dotted name is dropped before the suffix is taken:
      `Path("report.py/").suffix` is ".py", so such a name passes the
      extension check. */
  lemma {:induction false} DottedWithSeparator(stem: string, ext: string, size: Option<int>, listing: seq<string>)
    requires ListsAllowed(listing)
    requires |stem| > 0 && '/' !in stem && '/' !in ext
    requires |ext| > 0 && '.' !in ext
    ensures Suffix(stem + "." + ext + "/") == "." + ext
    ensures Lower("." + ext) in AllowedExtensions && (size.None? || size.value <= MaxFileSize) ==>
              ValidateFile(Some(stem + "." + ext + "/"), size, listing).Ok?
  {
    TrailingSeparator(stem + "." + ext);
    SuffixOfDotted(stem, ext);
  }

  /** The last occurrence is found where it is. */
  lemma LastIndexAt(s: string, c: char, p: nat)
    requires p < |s| && s[p] == c
    requires forall j :: p < j < |s| ==> s[j] != c
    ensures LastIndex(s, c) == Some(p)
    decreases |s|
  {
    if p < |s| - 1 {
      LastIndexAt(s[..|s| - 1], c, p);
    }
  }

  // ----- upload naming -----

  /** The k-th alternative name, `f"{stem}_{k}{suffix}"`. */
  function Candidate(stem: string, suffix: string, k: nat): string {
    stem + "_" + NatToString(k) + suffix
  }

  /** Different counters give different names. */
  lemma CandidateInjective(stem: string, suffix: string, j: nat, k: nat)
    requires Candidate(stem, suffix, j) == Candidate(stem, suffix, k)
    ensures j == k
  {
    var pre := stem + "_";
    var a, b := NatToString(j), NatToString(k);
    assert |a| == |b|;
    assert (pre + a + suffix)[|pre|..|pre| + |a|] == a;
    assert (pre + b + suffix)[|pre|..|pre| + |b|] == b;
    NatToStringInjective(j, k);
  }

  /** The filename-conflict loop of `upload_file`. `taken` holds the names in
      the user's project directory; `user_dir / filename` is the entry
      named `BaseName(filename)`, since pathlib drops empty and "." parts.
      That name is kept when free, else the alternative with the smallest
      free counter is used; the stored name is the chosen path's name. */
  method FreeName(filename: string, taken: set<string>) returns (name: string, k: nat)
    ensures name !in taken
    ensures BaseName(filename) !in taken ==> name == BaseName(filename) && k == 0
    ensures BaseName(filename) in taken ==>
              k >= 1 && name == Candidate(Stem(filename), Suffix(filename), k)
              && forall j :: 1 <= j < k ==> Candidate(Stem(filename), Suffix(filename), j) in taken
  {
    if BaseName(filename) !in taken {
      return BaseName(filename), 0;
    }
    name, k := FirstFreeCandidate(Stem(filename), Suffix(filename), taken);
  }

  /** The `while` of the conflict loop: counters from 1 up until the
      alternative is free. */
  method FirstFreeCandidate(stem: string, suffix: string, taken: set<string>) returns (name: string, k: nat)
    ensures name !in taken
    ensures k >= 1 && name == Candidate(stem, suffix, k)
    ensures forall j :: 1 <= j < k ==> Candidate(stem, suffix, j) in taken
  {
    k := 1;
    name := Candidate(stem, suffix, 1);
    while name in taken
      invariant k >= 1 && name == Candidate(stem, suffix, k)
      invariant forall j :: 1 <= j < k ==> Candidate(stem, suffix, j) in taken
      invariant Tried(stem, suffix, k) <= taken
      invariant |Tried(stem, suffix, k)| == k - 1
      decreases |taken| - (k - 1)
    {
      NotTried(stem, suffix, k, k);
      SubsetCard(Tried(stem, suffix, k + 1), taken);
      k := k + 1;
      name := Candidate(stem, suffix, k);
    }
  }

  /** The alternatives with counters 1 .. k-1. */
  function Tried(stem: string, suffix: string, k: nat): (r: set<string>)
    ensures forall j :: 1 <= j < k ==> Candidate(stem, suffix, j) in r
  {
    if k <= 1 then {}
    else
      var r := Tried(stem, suffix, k - 1) + {Candidate(stem, suffix, k - 1)};
      assert forall j :: 1 <= j < k - 1 ==> Candidate(stem, suffix, j) in Tried(stem, suffix, k - 1);
      r
  }

  /** A later alternative was not among the earlier ones. */
  lemma {:induction false} NotTried(stem: string, suffix: string, k: nat, m: nat)
    requires m <= k
    ensures Candidate(stem, suffix, k) !in Tried(stem, suffix, m)
  {
    if m > 1 {
      NotTried(stem, suffix, k, m - 1);
      if Candidate(stem, suffix, k) == Candidate(stem, suffix, m - 1) {
        CandidateInjective(stem, suffix, k, m - 1);
      }
    }
  }

  lemma SubsetCard<T>(a: set<T>, b: set<T>)
    requires a <= b
    ensures |a| <= |b|
  {
    assert b == a + (b - a);
  }

  // ----- ownership -----

  /** A project with its owner. */
  datatype Project = Project(id: int, userId: int)

  /** A row of `project_files`; `path` is where it lies on disk. */
  datatype ProjectFile = ProjectFile(id: int, projectId: int, filename: string, path: string)

  /** The project owner relation the join with `projects` checks. */
  predicate OwnedBy(projects: seq<Project>, f: ProjectFile, userId: int) {
    exists p :: p in projects && p.id == f.projectId && p.userId == userId
  }

  /** `select(Project).where(id, user_id)` of `upload_file`. */
  function OwnedProject(projects: seq<Project>, projectId: int, userId: int): (r: Result<Project, HttpError>)
    ensures r.Ok? <==> exists p :: p in projects && p.id == projectId && p.userId == userId
    ensures r.Ok? ==> r.value in projects && r.value.id == projectId && r.value.userId == userId
    ensures r.Err? ==> r.error == HttpError(404, "Project not found")
  {
    match FirstWhere(projects, (p: Project) => p.id == projectId && p.userId == userId)
    case None => Err(HttpError(404, "Project not found"))
    case Some(p) =>
      assert p in Filter((p: Project) => p.id == projectId && p.userId == userId, projects);
      Ok(p)
  }

  /** The file lookup of `download_file` and `delete_file`: the file with that
      id whose project belongs to the user. */
  function OwnedFile(files: seq<ProjectFile>, projects: seq<Project>, fileId: int, userId: int)
    : (r: Result<ProjectFile, HttpError>)
    ensures r.Ok? <==> exists f :: f in files && f.id == fileId && OwnedBy(projects, f, userId)
    ensures r.Ok? ==> r.value in files && r.value.id == fileId && OwnedBy(projects, r.value, userId)
    ensures r.Err? ==> r.error == HttpError(404, "File not found")
  {
    match FirstWhere(files, (f: ProjectFile) => f.id == fileId && OwnedBy(projects, f, userId))
    case None => Err(HttpError(404, "File not found"))
    case Some(f) =>
      assert f in Filter((f: ProjectFile) => f.id == fileId && OwnedBy(projects, f, userId), files);
      Ok(f)
  }

  /** `delete_file`: the owned row goes, every other row stays in order. */
  function DeleteFile(files: seq<ProjectFile>, projects: seq<Project>, fileId: int, userId: int)
    : (r: Result<seq<ProjectFile>, HttpError>)
    ensures r.Err? <==> OwnedFile(files, projects, fileId, userId).Err?
    ensures r.Err? ==> r.error == HttpError(404, "File not found")
    ensures r.Ok? ==> forall f :: f in r.value <==> f in files && f != OwnedFile(files, projects, fileId, userId).value
  {
    var f :- OwnedFile(files, projects, fileId, userId);
    Ok(Filter((g: ProjectFile) => g != f, files))
  }

  /** No user can download or delete a file of someone else's project: a
      file the lookup returns belongs to the caller, and the files of other
      users survive a delete. */
  lemma DeleteSparesOthers(files: seq<ProjectFile>, projects: seq<Project>, fileId: int, userId: int,
                           g: ProjectFile)
    requires forall p, q :: p in projects && q in projects && p.id == q.id ==> p == q
    requires g in files && !OwnedBy(projects, g, userId)
    requires DeleteFile(files, projects, fileId, userId).Ok?
    ensures g in DeleteFile(files, projects, fileId, userId).value
  {
  }

  /** `upload_file` up to the write: the project must be the user's, the
      file must pass validation, and the stored name (`file_path.name`) is
      the first free one. */
  method UploadName(projects: seq<Project>, projectId: int, userId: int, filename: Option<string>,
                    size: Option<int>, listing: seq<string>, taken: set<string>)
    returns (r: Result<string, HttpError>)
    requires ListsAllowed(listing)
    ensures OwnedProject(projects, projectId, userId).Err? ==> r == Err(HttpError(404, "Project not found"))
    ensures OwnedProject(projects, projectId, userId).Ok? ==>
              (r.Ok? <==> ValidateFile(filename, size, listing).Ok?)
    ensures OwnedProject(projects, projectId, userId).Ok? && ValidateFile(filename, size, listing).Err? ==>
              r == Err(ValidateFile(filename, size, listing).error)
    ensures r.Ok? ==> r.value !in taken
    ensures r.Ok? && BaseName(filename.value) !in taken ==> r.value == BaseName(filename.value)
    ensures r.Ok? && BaseName(filename.value) in taken ==>
              exists k :: k >= 1 && r.value == Candidate(Stem(filename.value), Suffix(filename.value), k)
  {
    var project := OwnedProject(projects, projectId, userId);
    if project.Err? {
      return Err(project.error);
    }
    var checked := ValidateFile(filename, size, listing);
    if checked.Err? {
      return Err(checked.error);
    }
    var name, k := FreeName(filename.value, taken);
    return Ok(name);
  }

  // ----- system status -----

  datatype Status = Healthy | Degraded | Down

  /** How bad a status is. */
  function Severity(s: Status): nat {
    match s
    case Healthy => 0
    case Degraded => 1
    case Down => 2
  }

  /** The memory service by its usage percentage. */
  function MemoryStatus(percent: real): (s: Status)
    ensures s == Healthy <==> percent < 80.0
    ensures s == Degraded <==> 80.0 <= percent <= 95.0
    ensures s == Down <==> percent > 95.0
  {
    var s := if percent < 80.0 then Healthy else Degraded;
    if percent > 95.0 then Down else s
  }

  /** The overall status: down if any service is, else degraded if any is,
      else healthy. */
  function Overall(services: seq<Status>): (o: Status)
    ensures forall i :: 0 <= i < |services| ==> Severity(services[i]) <= Severity(o)
    ensures o == Healthy || o in services
  {
    if Down in services then Down
    else if Degraded in services then Degraded
    else Healthy
  }

  /** The overall status is the worst of the services, so it only worsens as
      services are added. */
  lemma OverallMonotone(a: seq<Status>, b: seq<Status>)
    ensures Severity(Overall(a)) <= Severity(Overall(a + b))
    ensures Overall(a + b) == (if Severity(Overall(a)) >= Severity(Overall(b)) then Overall(a) else Overall(b))
  {
    assert forall x :: x in a + b <==> x in a || x in b;
  }

  /** `system_status`: database, file storage and memory, then the overall
      verdict. A failing database probe is down, a failing storage probe
      degraded. */
  function SystemStatus(databaseUp: bool, storageUp: bool, memoryPercent: real): (r: (seq<Status>, Status))
    ensures |r.0| == 3
    ensures r.0[0] == (if databaseUp then Healthy else Down)
    ensures r.0[1] == (if storageUp then Healthy else Degraded)
    ensures r.0[2] == MemoryStatus(memoryPercent)
    ensures r.1 == Down <==> !databaseUp || memoryPercent > 95.0
    ensures r.1 == Healthy <==> databaseUp && storageUp && memoryPercent < 80.0
  {
    var services := [if databaseUp then Healthy else Down, if storageUp then Healthy else Degraded,
                     MemoryStatus(memoryPercent)];
    (services, Overall(services))
  }
}
