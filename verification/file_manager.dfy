/** The file manager: directory listing with the video-extension filter
    and the "directories first, then name" order, storage-root discovery,
    and the size and duration labels. The file system is abstracted as
    the facts the code asks of it. */
module FileManager {
  import opened Wrappers
  import opened Text
  import opened Sorting
  import opened VideoFiles
  import opened KotlinInt

  /** A child returned by `File.listFiles()`, with what the listing reads
      of it; `probedDuration` is what the media-metadata probe would
      return (`None` on any failure). */
  datatype Entry = Entry(
    name: string,
    absolutePath: string,
    isDirectory: bool,
    length: int,
    lastModified: int,
    probedDuration: Option<int>
  )

  /** What `File(path)` denotes: nothing, something that is not a
      directory, or a directory whose `listFiles()` may return null. */
  datatype PathKind = Missing | NotDirectory | Directory(children: Option<seq<Entry>>)

  /** The file system as far as the application looks at it. */
  type FileSystem = map<string, PathKind>

  function Lookup(fs: FileSystem, path: string): PathKind {
    if path in fs then fs[path] else Missing
  }

  /** `File(path).exists() && File(path).isDirectory`. */
  predicate IsExistingDirectory(fs: FileSystem, path: string) {
    Lookup(fs, path).Directory?
  }

  /** `listFiles()` treated as empty when it returns null or the path is
      not a directory. */
  function Children(kind: PathKind): seq<Entry> {
    if kind.Directory? && kind.children.Some? then kind.children.value else []
  }

  // ---------------------------------------------------------------------
  // Video extensions

  const VideoExtensions: set<string> := {"mp4", "mkv", "avi", "mov", "webm", "flv"}

  /** Kotlin's `File.extension`: the text after the last dot of the name,
      or "" when the name has no dot. */
  function Extension(name: string): (ext: string)
    ensures '.' !in ext
    ensures '.' !in name ==> ext == ""
    ensures '.' in name ==> |ext| < |name| && name == name[..|name| - |ext| - 1] + "." + ext
  {
    var i := LastIndexOf(name, '.');
    if i < 0 then "" else name[i + 1..]
  }

  /** `isVideoFile`: the lower-cased extension is a recognised one. */
  predicate IsVideoFile(name: string) {
    Lower(Extension(name)) in VideoExtensions
  }

  /** The entries `getFilesInDirectory` keeps. */
  predicate IsListed(e: Entry) {
    e.isDirectory || IsVideoFile(e.name)
  }

  /** The row built for a kept entry: directories get size 0 and no
      duration, video files their length and probed duration. */
  function ToVideoFile(e: Entry): (v: VideoFile)
    ensures v.path == e.absolutePath && v.name == e.name
    ensures v.lastModified == e.lastModified && v.isDirectory == e.isDirectory
    ensures e.isDirectory ==> v.size == 0 && v.duration == None
    ensures !e.isDirectory ==> v.size == e.length && v.duration == e.probedDuration
  {
    if e.isDirectory then VideoFile(e.absolutePath, e.name, 0, None, e.lastModified, true)
    else VideoFile(e.absolutePath, e.name, e.length, e.probedDuration, e.lastModified, false)
  }

  /** The kept entries as rows, in `listFiles()` order. */
  function KeptRows(children: seq<Entry>): (r: seq<VideoFile>)
    ensures forall v :: v in r <==> exists e :: e in children && IsListed(e) && v == ToVideoFile(e)
    decreases |children|
  {
    if |children| == 0 then []
    else
      var rest := KeptRows(children[1..]);
      assert forall e :: e in children <==> e == children[0] || e in children[1..];
      if IsListed(children[0]) then [ToVideoFile(children[0])] + rest else rest
  }

  // ---------------------------------------------------------------------
  // Listing order

  /** `String.compareTo(...) <= 0`: lexicographic order on characters. */
  predicate LexLe(a: string, b: string)
    decreases |a|
  {
    |a| == 0 || (|b| > 0 && (a[0] < b[0] || (a[0] == b[0] && LexLe(a[1..], b[1..]))))
  }

  lemma LexLeTotal(a: string, b: string)
    ensures LexLe(a, b) || LexLe(b, a)
    decreases |a|
  {
    if |a| > 0 && |b| > 0 && a[0] == b[0] {
      LexLeTotal(a[1..], b[1..]);
    }
  }

  lemma LexLeTransitive(a: string, b: string, c: string)
    requires LexLe(a, b) && LexLe(b, c)
    ensures LexLe(a, c)
    decreases |a|
  {
    if |a| > 0 && a[0] == b[0] && b[0] == c[0] {
      LexLeTransitive(a[1..], b[1..], c[1..]);
    }
  }

  /** `compareBy({ !it.isDirectory }, { it.name.lowercase() })`, as "not after". */
  predicate ListingLe(a: VideoFile, b: VideoFile) {
    (a.isDirectory && !b.isDirectory)
    || (a.isDirectory == b.isDirectory && LexLe(Lower(a.name), Lower(b.name)))
  }

  lemma ListingLeIsTotalPreorder()
    ensures TotalPreorder(ListingLe)
  {
    forall x, y ensures ListingLe(x, y) || ListingLe(y, x) {
      LexLeTotal(Lower(x.name), Lower(y.name));
    }
    forall x, y, z | ListingLe(x, y) && ListingLe(y, z) ensures ListingLe(x, z) {
      if x.isDirectory == y.isDirectory == z.isDirectory {
        LexLeTransitive(Lower(x.name), Lower(y.name), Lower(z.name));
      }
    }
  }

  /** `getFilesInDirectory(path)`: nothing for a missing path or a
      non-directory; otherwise the kept entries, sorted stably with
      directories first and each group by lower-cased name. */
  function GetFilesInDirectory(kind: PathKind): (r: seq<VideoFile>)
    ensures !kind.Directory? ==> r == []
    ensures multiset(r) == multiset(KeptRows(Children(kind)))
    ensures Sorted(r, ListingLe)
  {
    ListingLeIsTotalPreorder();
    if !kind.Directory? then []
    else Sort(KeptRows(Children(kind)), ListingLe)
  }

  /** A row is listed exactly when it comes from a directory child or a
      recognised video file among the children. */
  lemma ListingMembers(kind: PathKind, v: VideoFile)
    ensures v in GetFilesInDirectory(kind) <==>
      exists e :: e in Children(kind) && IsListed(e) && v == ToVideoFile(e)
  {
    var r := GetFilesInDirectory(kind);
    assert v in r <==> v in multiset(r);
    assert v in KeptRows(Children(kind)) <==> v in multiset(KeptRows(Children(kind)));
  }

  /** Every directory precedes every file, each group is ordered by
      lower-cased name, and directory rows carry size 0 and no duration. */
  lemma ListingShape(kind: PathKind)
    ensures var r := GetFilesInDirectory(kind);
      && (forall i, j :: 0 <= i < j < |r| && r[j].isDirectory ==> r[i].isDirectory)
      && (forall i, j :: 0 <= i < j < |r| && r[i].isDirectory == r[j].isDirectory ==>
            LexLe(Lower(r[i].name), Lower(r[j].name)))
      && (forall i :: 0 <= i < |r| && r[i].isDirectory ==> r[i].size == 0 && r[i].duration == None)
  {
    var r := GetFilesInDirectory(kind);
    forall i | 0 <= i < |r| && r[i].isDirectory ensures r[i].size == 0 && r[i].duration == None {
      assert r[i] in multiset(KeptRows(Children(kind)));
      ListingMembers(kind, r[i]);
    }
  }

  // ---------------------------------------------------------------------
  // Labels

  /** The hour, minute and second fields `formatDuration` prints. For a
      non-negative duration they are a proper clock reading of its whole
      seconds. */
  function DurationFields(ms: int): (f: (int, int, int))
    ensures ms >= 0 ==> f.0 >= 0 && 0 <= f.1 < 60 && 0 <= f.2 < 60
    ensures ms >= 0 ==> f.0 * 3600000 + f.1 * 60000 + f.2 * 1000 == ms - ms % 1000
  {
    (TruncDiv(ms, 3600000), TruncRem(TruncDiv(ms, 60000), 60), TruncRem(TruncDiv(ms, 1000), 60))
  }

  /** `formatDuration(ms)`: `HH:MM:SS` when there is at least one hour,
      otherwise `MM:SS`, every field `%02d`. */
  function FormatDuration(ms: int): string {
    var (hours, minutes, seconds) := DurationFields(ms);
    if hours > 0 then Pad2(hours) + (":" + (Pad2(minutes) + (":" + Pad2(seconds))))
    else Pad2(minutes) + (":" + Pad2(seconds))
  }

  /** Reads one clock field of at least two digits. */
  function ReadField(s: string): Option<(nat, string)> {
    var n := DigitRun(s);
    if n < 2 then None else Some((ParseDigits(s[..n]), s[n..]))
  }

  /** Reads `MM:SS` or `HH:MM:SS` back into its fields. */
  function ParseClock(s: string): Option<seq<nat>> {
    var first :- ReadField(s);
    var rest :- ParseClockTail(first.1);
    Some([first.0] + rest)
  }

  /** After the first field: `:SS` or `:MM:SS`. */
  function ParseClockTail(s: string): Option<seq<nat>> {
    if |s| == 0 || s[0] != ':' then None
    else
      var second :- ReadField(s[1..]);
      var last :- ParseClockLast(second.1);
      Some([second.0] + last)
  }

  /** After the second field: nothing, or `:SS`. */
  function ParseClockLast(s: string): Option<seq<nat>> {
    if |s| == 0 then Some([])
    else if s[0] != ':' then None
    else
      var third :- ReadField(s[1..]);
      if |third.1| == 0 then Some([third.0]) else None
  }

  /** A field of two or more digits followed by a non-digit is read whole. */
  lemma ReadFieldDigits(d: string, rest: string)
    requires |d| >= 2 && AllDigits(d) && EndsNumber(rest)
    ensures ReadField(d + rest) == Some((ParseDigits(d), rest))
  {
    DigitRunOfDigits(d, rest);
    assert (d + rest)[..|d|] == d;
    assert (d + rest)[|d|..] == rest;
  }

  lemma ParseClockStep(s: string, x: nat, rest: string, ys: seq<nat>)
    requires ReadField(s) == Some((x, rest)) && ParseClockTail(rest) == Some(ys)
    ensures ParseClock(s) == Some([x] + ys)
  {
  }

  lemma ParseClockTailStep(s: string, x: nat, rest: string, ys: seq<nat>)
    requires |s| > 0 && s[0] == ':' && ReadField(s[1..]) == Some((x, rest))
    requires ParseClockLast(rest) == Some(ys)
    ensures ParseClockTail(s) == Some([x] + ys)
  {
  }

  lemma ParseClockLastStep(s: string, x: nat)
    requires |s| > 0 && s[0] == ':' && ReadField(s[1..]) == Some((x, ""))
    ensures ParseClockLast(s) == Some([x])
  {
  }

  /** `:` followed by a field of two or more digits and nothing else. */
  lemma ReadColonField(b: string, rest: string)
    requires |b| >= 2 && AllDigits(b) && EndsNumber(rest)
    ensures var s := ":" + (b + rest); |s| > 0 && s[0] == ':' && ReadField(s[1..]) == Some((ParseDigits(b), rest))
  {
    ReadFieldDigits(b, rest);
    assert (":" + (b + rest))[1..] == b + rest;
  }

  /** A first field of two or more digits, then a well-formed tail. */
  lemma ParseClockFirst(a: string, tail: string, ys: seq<nat>)
    requires |a| >= 2 && AllDigits(a) && EndsNumber(tail) && ParseClockTail(tail) == Some(ys)
    ensures ParseClock(a + tail) == Some([ParseDigits(a)] + ys)
  {
    ReadFieldDigits(a, tail);
    ParseClockStep(a + tail, ParseDigits(a), tail, ys);
  }

  lemma ParseClockTwoFields(a: string, b: string)
    requires |a| >= 2 && AllDigits(a) && |b| >= 2 && AllDigits(b)
    ensures ParseClock(a + (":" + b)) == Some([ParseDigits(a), ParseDigits(b)])
  {
    var tail := ":" + b;
    assert ParseClockTail(tail) == Some([ParseDigits(b)]) by {
      ReadColonField(b, "");
      assert b + "" == b;
      assert ParseClockLast("") == Some([]);
      ParseClockTailStep(tail, ParseDigits(b), "", []);
      assert [ParseDigits(b)] + [] == [ParseDigits(b)];
    }
    ParseClockFirst(a, tail, [ParseDigits(b)]);
    assert [ParseDigits(a)] + [ParseDigits(b)] == [ParseDigits(a), ParseDigits(b)];
  }

  lemma ParseClockThreeFields(a: string, b: string, c: string)
    requires |a| >= 2 && AllDigits(a) && |b| >= 2 && AllDigits(b) && |c| >= 2 && AllDigits(c)
    ensures ParseClock(a + (":" + (b + (":" + c)))) == Some([ParseDigits(a), ParseDigits(b), ParseDigits(c)])
  {
    ParseClockTailTwo(b, c);
    ParseClockFirst(a, ":" + (b + (":" + c)), [ParseDigits(b), ParseDigits(c)]);
    assert [ParseDigits(a)] + [ParseDigits(b), ParseDigits(c)] == [ParseDigits(a), ParseDigits(b), ParseDigits(c)];
  }

  lemma ParseClockTailTwo(b: string, c: string)
    requires |b| >= 2 && AllDigits(b) && |c| >= 2 && AllDigits(c)
    ensures ParseClockTail(":" + (b + (":" + c))) == Some([ParseDigits(b), ParseDigits(c)])
  {
    var last := ":" + c;
    assert ParseClockLast(last) == Some([ParseDigits(c)]) by {
      ReadColonField(c, "");
      assert c + "" == c;
      ParseClockLastStep(last, ParseDigits(c));
    }
    var s := ":" + (b + last);
    assert |s| > 0 && s[0] == ':' && ReadField(s[1..]) == Some((ParseDigits(b), last)) by {
      ReadColonField(b, last);
    }
    ParseClockTailStep(s, ParseDigits(b), last, [ParseDigits(c)]);
    assert [ParseDigits(b)] + [ParseDigits(c)] == [ParseDigits(b), ParseDigits(c)];
  }

  /** For a non-negative duration the label reads back as three fields
      exactly when there is at least one hour, each field zero padded to
      two or more digits, and the fields are those of `DurationFields`. */
  lemma FormatDurationReadsBack(ms: int)
    requires ms >= 0
    ensures var (h, m, s) := DurationFields(ms);
      ParseClock(FormatDuration(ms)) == Some(if h > 0 then [h, m, s] else [m, s])
  {
    var (h, m, s) := DurationFields(ms);
    if h > 0 {
      ParseClockThreeFields(Pad2(h), Pad2(m), Pad2(s));
    } else {
      ParseClockTwoFields(Pad2(m), Pad2(s));
    }
  }

  /** The label of a non-negative duration denotes the duration rounded
      down to whole seconds. */
  lemma FormatDurationValue(ms: int)
    requires ms >= 0
    ensures match ParseClock(FormatDuration(ms))
      case Some(fs) => (|fs| == 3 && fs[0] * 3600000 + fs[1] * 60000 + fs[2] * 1000 == ms - ms % 1000)
                    || (|fs| == 2 && fs[0] * 60000 + fs[1] * 1000 == ms - ms % 1000)
      case None => false
  {
    FormatDurationReadsBack(ms);
  }

  datatype SizeUnit = KB | MB | GB

  function UnitBytes(u: SizeUnit): int {
    match u
    case KB => 1024
    case MB => 1024 * 1024
    case GB => 1024 * 1024 * 1024
  }

  /** A size label: the exact byte count, or a two-decimal figure in a unit
      (the figure's digits are not modelled). */
  datatype SizeLabel = Exact(text: string) | Scaled(bytes: int, unit: SizeUnit)

  /** `formatFileSize(bytes)`: below 1024 the exact count and " B";
      otherwise the largest of GB, MB, KB whose size is reached. */
  function FormatFileSize(bytes: int): (r: SizeLabel)
    ensures r.Exact? <==> bytes < 1024
    ensures r.Exact? ==> ReadInt(r.text) == Some((bytes, " B"))
    ensures r.Scaled? ==> r.bytes == bytes && UnitBytes(r.unit) <= bytes
    ensures r.Scaled? && r.unit != GB ==> bytes < 1024 * UnitBytes(r.unit)
  {
    if bytes >= UnitBytes(GB) then Scaled(bytes, GB)
    else if bytes >= UnitBytes(MB) then Scaled(bytes, MB)
    else if bytes >= UnitBytes(KB) then Scaled(bytes, KB)
    else
      IntToStringRoundTrip(bytes, " B");
      Exact(IntToString(bytes) + " B")
  }

  // ---------------------------------------------------------------------
  // Storage locations

  const SdCardPath := "/sdcard/"
  const EmulatedPath := "/storage/emulated/0/"

  ghost predicate NoDuplicates<T>(xs: seq<T>) {
    forall i, j :: 0 <= i < j < |xs| ==> xs[i] != xs[j]
  }

  /** The position of the first occurrence of `x`. */
  function FirstIndex(xs: seq<string>, x: string): (i: nat)
    requires x in xs
    ensures i < |xs| && xs[i] == x
    ensures forall k :: 0 <= k < i ==> xs[k] != x
  {
    if xs[0] == x then 0 else 1 + FirstIndex(xs[1..], x)
  }

  /** Where `x` first occurs in a concatenation. */
  lemma FirstIndexAppend(a: seq<string>, b: seq<string>, x: string)
    requires x in a + b
    ensures x in a ==> FirstIndex(a + b, x) == FirstIndex(a, x)
    ensures x !in a ==> FirstIndex(a + b, x) >= |a|
  {
    if x in a {
      var j := FirstIndex(a, x);
      assert (a + b)[j] == x;
    }
  }

  /** `distinct()`: every element once, at its first occurrence, in the
      order of first occurrences. */
  function Distinct(xs: seq<string>): (r: seq<string>)
    ensures NoDuplicates(r)
    ensures forall x :: x in r <==> x in xs
    ensures forall i, j :: 0 <= i < j < |r| ==> FirstIndex(xs, r[i]) < FirstIndex(xs, r[j])
    decreases |xs|
  {
    if |xs| == 0 then []
    else
      var init := xs[..|xs| - 1];
      var last := xs[|xs| - 1];
      var d := Distinct(init);
      assert forall x :: x in xs <==> x in init || x == last;
      assert xs == init + [last];
      assert forall y :: y in init ==> FirstIndex(xs, y) == FirstIndex(init, y) by {
        forall y | y in init ensures FirstIndex(xs, y) == FirstIndex(init, y) {
          FirstIndexAppend(init, [last], y);
        }
      }
      if last in d then d
      else
        assert FirstIndex(xs, last) == |init| by {
          FirstIndexAppend(init, [last], last);
        }
        d + [last]
  }

  /** A `/mnt` child taken as a USB drive. */
  predicate IsUsbDrive(e: Entry) {
    e.isDirectory && StartsWith(Lower(e.name), "usb")
  }

  /** A `/storage` child taken as a volume: not the emulated or self alias. */
  predicate IsStorageVolume(e: Entry) {
    e.isDirectory && !EqualsIgnoreCase(e.name, "emulated") && !EqualsIgnoreCase(e.name, "self")
  }

  function UsbPaths(cs: seq<Entry>): (r: seq<string>)
    ensures forall p :: p in r <==> exists e :: e in cs && IsUsbDrive(e) && e.absolutePath == p
    decreases |cs|
  {
    if |cs| == 0 then []
    else
      assert forall e :: e in cs <==> e == cs[0] || e in cs[1..];
      (if IsUsbDrive(cs[0]) then [cs[0].absolutePath] else []) + UsbPaths(cs[1..])
  }

  function VolumePaths(cs: seq<Entry>): (r: seq<string>)
    ensures forall p :: p in r <==> exists e :: e in cs && IsStorageVolume(e) && e.absolutePath == p
    decreases |cs|
  {
    if |cs| == 0 then []
    else
      assert forall e :: e in cs <==> e == cs[0] || e in cs[1..];
      (if IsStorageVolume(cs[0]) then [cs[0].absolutePath] else []) + VolumePaths(cs[1..])
  }

  /** A USB drive's path: a directory under `/mnt/` named "usb…". */
  ghost predicate IsUsbPath(fs: FileSystem, p: string) {
    exists e :: e in Children(Lookup(fs, "/mnt/")) && IsUsbDrive(e) && e.absolutePath == p
  }

  /** A storage volume's path under `/storage/`. */
  ghost predicate IsVolumePath(fs: FileSystem, p: string) {
    exists e :: e in Children(Lookup(fs, "/storage/")) && IsStorageVolume(e) && e.absolutePath == p
  }

  /** Where a location belongs in the list: the three fixed roots in
      their order, then USB drives, then storage volumes. */
  ghost function Rank(fs: FileSystem, externalRoot: string, p: string): nat {
    if p == SdCardPath && IsExistingDirectory(fs, p) then 0
    else if p == EmulatedPath && IsExistingDirectory(fs, p) then 1
    else if p == externalRoot && IsExistingDirectory(fs, p) then 2
    else if IsUsbPath(fs, p) then 3
    else 4
  }

  /** `getStorageLocations()`: the fixed roots that are directories, then
      USB drives under `/mnt/`, then volumes under `/storage/`, without
      repeats. `externalRoot` is what the platform reports as external
      storage. */
  function GetStorageLocations(fs: FileSystem, externalRoot: string): (r: seq<string>)
    ensures NoDuplicates(r)
    ensures forall p :: p in r <==>
      || (p in [SdCardPath, EmulatedPath, externalRoot] && IsExistingDirectory(fs, p))
      || IsUsbPath(fs, p)
      || IsVolumePath(fs, p)
    ensures forall i, j :: 0 <= i < j < |r| ==> Rank(fs, externalRoot, r[i]) <= Rank(fs, externalRoot, r[j])
  {
    var roots := Roots(fs, externalRoot);
    var usb := UsbPaths(Children(Lookup(fs, "/mnt/")));
    var volumes := VolumePaths(Children(Lookup(fs, "/storage/")));
    var r := Distinct(roots + usb + volumes);
    assert forall i, j :: 0 <= i < j < |r| ==> Rank(fs, externalRoot, r[i]) <= Rank(fs, externalRoot, r[j]) by {
      forall i, j | 0 <= i < j < |r| ensures Rank(fs, externalRoot, r[i]) <= Rank(fs, externalRoot, r[j]) {
        RankOrder(fs, externalRoot, usb, volumes, r[i], r[j]);
      }
    }
    r
  }

  /** The fixed roots that exist, in their order. */
  function Roots(fs: FileSystem, externalRoot: string): (r: seq<string>)
    ensures forall p :: p in r <==> Rank(fs, externalRoot, p) <= 2
  {
    (if IsExistingDirectory(fs, SdCardPath) then [SdCardPath] else [])
      + (if IsExistingDirectory(fs, EmulatedPath) then [EmulatedPath] else [])
      + (if IsExistingDirectory(fs, externalRoot) then [externalRoot] else [])
  }

  /** An earlier first occurrence in roots, USB drives, volumes never has
      a later rank. */
  lemma RankOrder(fs: FileSystem, externalRoot: string, usb: seq<string>,
                  volumes: seq<string>, p: string, q: string)
    requires forall x :: x in usb <==> IsUsbPath(fs, x)
    requires var all := Roots(fs, externalRoot) + usb + volumes;
      p in all && q in all && FirstIndex(all, p) < FirstIndex(all, q)
    ensures Rank(fs, externalRoot, p) <= Rank(fs, externalRoot, q)
  {
    var roots := Roots(fs, externalRoot);
    var rank := Rank(fs, externalRoot, q);
    if rank <= 2 {
      assert roots + usb + volumes == roots + (usb + volumes);
      RankOrderRoots(fs, externalRoot, usb + volumes, p, q);
    } else if rank == 3 {
      RankOrderUsb(fs, externalRoot, roots + usb, volumes, p, q);
    }
  }

  lemma RankOrderRoots(fs: FileSystem, externalRoot: string, rest: seq<string>, p: string, q: string)
    requires var roots := Roots(fs, externalRoot);
      p in roots + rest && q in roots && FirstIndex(roots + rest, p) < FirstIndex(roots + rest, q)
    ensures Rank(fs, externalRoot, p) <= Rank(fs, externalRoot, q)
  {
    var roots := Roots(fs, externalRoot);
    FirstIndexAppend(roots, rest, q);
    FirstIndexAppend(roots, rest, p);
    RootsOrder(fs, externalRoot, roots, p, q);
  }

  lemma RankOrderUsb(fs: FileSystem, externalRoot: string, front: seq<string>, volumes: seq<string>, p: string, q: string)
    requires forall x :: x in front ==> Rank(fs, externalRoot, x) <= 3
    requires p in front + volumes && q in front && FirstIndex(front + volumes, p) < FirstIndex(front + volumes, q)
    ensures Rank(fs, externalRoot, p) <= 3
  {
    FirstIndexAppend(front, volumes, q);
    FirstIndexAppend(front, volumes, p);
  }

  /** Among the fixed roots, the list keeps the order /sdcard/, emulated,
      external. */
  lemma RootsOrder(fs: FileSystem, externalRoot: string, roots: seq<string>, p: string, q: string)
    requires roots == Roots(fs, externalRoot)
    requires p in roots && q in roots && FirstIndex(roots, p) < FirstIndex(roots, q)
    ensures Rank(fs, externalRoot, p) <= Rank(fs, externalRoot, q)
  {
  }
}
