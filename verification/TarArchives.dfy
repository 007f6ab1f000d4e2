/** Which archives the strict reader accepts, told by their paths, their bytes and the limits
    (scripts/verify-npm-package.py). */
module TarArchives {
  import opened Bytes
  import opened Options
  import opened Tar

  const ROOT := Ascii("package")

  // --- Paths ---

  /** A path component: not empty, without slashes, and neither `.` nor `..`; no backslash either. */
  predicate Component(c: Name) {
    c != [] && 47 !in c && 92 !in c && c != [46] && c != [46, 46]
  }

  predicate Components(cs: seq<Name>) {
    forall i :: 0 <= i < |cs| ==> Component(cs[i])
  }

  /** Components with a slash before each. */
  function Below(cs: seq<Name>): Name {
    if cs == [] then [] else [47] + cs[0] + Below(cs[1..])
  }

  /** A path inside the package. */
  function PathOf(cs: seq<Name>): Name {
    ROOT + Below(cs)
  }

  lemma RootIs()
    ensures ROOT == PACKAGE && Component(ROOT)
  {
  }

  lemma {:induction false} IndexAfter(a: Name, b: Name)
    requires 47 !in a
    ensures IndexOf(a + b, 47) == |a| + IndexOf(b, 47)
  {
    if a == [] {
      assert a + b == b;
    } else {
      assert (a + b)[1..] == a[1..] + b;
      IndexAfter(a[1..], b);
    }
  }

  /** Splitting at slashes gives the components back. */
  lemma {:induction false} SplitWritten(first: Name, cs: seq<Name>)
    requires 47 !in first && Components(cs)
    ensures Split(first + Below(cs)) == [first] + cs
    decreases |cs|
  {
    IndexAfter(first, Below(cs));
    if cs == [] {
      assert first + [] == first;
    } else {
      var rest := cs[0] + Below(cs[1..]);
      assert Below(cs) == [47] + rest;
      assert (first + Below(cs))[..|first|] == first && (first + Below(cs))[|first| + 1..] == rest;
      assert Component(cs[0]);
      SplitWritten(cs[0], cs[1..]);
      assert [cs[0]] + cs[1..] == cs;
    }
  }

  lemma {:induction false} JoinBelow(cs: seq<Name>)
    ensures cs != [] ==> [47] + JoinPath(cs) == Below(cs)
  {
    if |cs| > 1 {
      JoinBelow(cs[1..]);
      assert [47] + (cs[0] + [47] + JoinPath(cs[1..])) == [47] + cs[0] + ([47] + JoinPath(cs[1..]));
    } else if cs != [] {
      assert Below(cs[1..]) == [];
      assert [47] + cs[0] + [] == [47] + cs[0];
    }
  }

  lemma {:induction false} BelowParts(cs: seq<Name>, u: byte)
    ensures u in Below(cs) <==> (cs != [] && u == 47) || exists i :: 0 <= i < |cs| && u in cs[i]
  {
    if cs != [] {
      BelowParts(cs[1..], u);
      if i :| 0 <= i < |cs| && u in cs[i] {
        if i > 0 {
          assert cs[1..][i - 1] == cs[i];
        }
      }
      if i :| 0 <= i < |cs[1..]| && u in cs[1..][i] {
        assert cs[i + 1] == cs[1..][i];
      }
      assert u in [47] + cs[0] <==> u == 47 || u in cs[0];
    }
  }

  /** A name is inside the package exactly when it is the package's path to some components. */
  lemma InsideExactly(name: Name)
    ensures InsidePackage(name) <==> exists cs :: Components(cs) && name == PathOf(cs)
  {
    hide *;
    if InsidePackage(name) {
      var cs := InsideParts(name);
    }
    forall cs | Components(cs) && name == PathOf(cs) ensures InsidePackage(name) {
      WrittenInside(cs);
    }
  }

  lemma InsideParts(name: Name) returns (cs: seq<Name>)
    requires InsidePackage(name)
    ensures Components(cs) && name == PathOf(cs)
  {
    hide *;
    var parts := Split(name);
    cs := parts[1..];
    InsideRoot(name);
    JoinSplit(name);
    PathParts(parts);
  }

  lemma InsideRoot(name: Name)
    requires InsidePackage(name)
    ensures Split(name)[0] == ROOT && Components(Split(name)[1..])
  {
    RootIs();
    hide Split, Component;
    var parts := Split(name);
    forall i | 0 <= i < |parts| - 1 ensures Component(parts[1..][i]) {
      InsidePart(name, i + 1);
    }
  }

  lemma PathParts(parts: seq<Name>)
    requires parts != [] && parts[0] == ROOT
    ensures JoinPath(parts) == PathOf(parts[1..])
  {
    JoinBelow(parts[1..]);
    hide ROOT, Below;
    if |parts| == 1 {
      assert Below(parts[1..]) == [] by { NothingBelow(); }
      assert ROOT + [] == ROOT;
    } else {
      assert ROOT + [47] + JoinPath(parts[1..]) == ROOT + ([47] + JoinPath(parts[1..]));
    }
  }

  lemma NothingBelow()
    ensures Below([]) == []
  {
  }

  lemma InsidePart(name: Name, i: nat)
    requires InsidePackage(name) && i < |Split(name)|
    ensures Component(Split(name)[i])
  {
    SplitSlashes(name);
    PartInName(name, i);
    hide Split;
  }

  lemma WrittenInside(cs: seq<Name>)
    requires Components(cs)
    ensures InsidePackage(PathOf(cs))
  {
    RootIs();
    SplitWritten(ROOT, cs);
    BelowParts(cs, 92);
    hide Split, Below;
    var parts := [ROOT] + cs;
    assert forall i :: 0 < i < |parts| ==> parts[i] == cs[i - 1];
    assert 92 !in ROOT;
  }

  lemma {:induction false} SplitSlashes(s: Name)
    ensures forall i :: 0 <= i < |Split(s)| ==> 47 !in Split(s)[i]
  {
    var n := IndexOf(s, SLASH);
    if n < |s| {
      SplitSlashes(s[n + 1..]);
    }
  }

  lemma {:induction false} PartInName(s: Name, i: nat)
    requires i < |Split(s)|
    ensures forall u :: u in Split(s)[i] ==> u in s
  {
    var n := IndexOf(s, SLASH);
    if n < |s| && i > 0 {
      PartInName(s[n + 1..], i - 1);
    }
  }

  lemma RelativeIs(cs: seq<Name>)
    requires Components(cs)
    ensures Relative(PathOf(cs)) == JoinPath(cs)
  {
    RootIs();
    SplitWritten(ROOT, cs);
  }

  /** A regular file is approved exactly when its name is the package's path to components that make an inventory path. */
  lemma FileApproved(rawName: Name, size: nat, inventory: set<Name>)
    ensures Approved(false, rawName, size, inventory) <==>
            exists cs :: Components(cs) && rawName == PathOf(cs) && JoinPath(cs) in inventory
  {
    InsideExactly(rawName);
    forall cs | Components(cs) && rawName == PathOf(cs) ensures Relative(rawName) == JoinPath(cs) {
      RelativeIs(cs);
    }
    hide InsidePackage, Relative, Components, PathOf;
  }

  /** A directory is approved exactly when it is empty and its name, less one slash at its end, is the package itself or
      the package's path to a directory above some inventory file. */
  lemma DirectoryApproved(rawName: Name, size: nat, inventory: set<Name>)
    ensures Approved(true, rawName, size, inventory) <==>
            size == 0 && exists cs :: Components(cs) && NameOf(true, rawName) == PathOf(cs) && Above(cs, inventory)
  {
    var name := NameOf(true, rawName);
    InsideExactly(name);
    forall cs | Components(cs) && name == PathOf(cs) ensures name in Directories(inventory) <==> Above(cs, inventory) {
      DirectoryAbove(cs, inventory);
    }
    hide InsidePackage, Directories, Components, PathOf, Above;
  }

  /** The package itself, or a path some inventory file goes on from. */
  ghost predicate Above(cs: seq<Name>, inventory: set<Name>) {
    cs == [] || exists rest :: JoinPath(cs) + [47] + rest in inventory
  }

  lemma DirectoryAbove(cs: seq<Name>, inventory: set<Name>)
    requires Components(cs)
    ensures PathOf(cs) in Directories(inventory) <==> Above(cs, inventory)
  {
    RootIs();
    JoinBelow(cs);
    if cs == [] {
      assert PathOf(cs) == ROOT;
    } else {
      var path := JoinPath(cs);
      assert PathOf(cs) == ROOT + [47] + path;
      assert |PathOf(cs)| > |ROOT|;
      if PathOf(cs) in Directories(inventory) {
        var f, i :| f in inventory && 0 <= i < |f| && f[i] == SLASH && PathOf(cs) == PACKAGE + [SLASH] + f[..i];
        assert (ROOT + [47] + path)[|ROOT| + 1..] == path && (PACKAGE + [SLASH] + f[..i])[|ROOT| + 1..] == f[..i];
        assert f == path + [47] + f[i + 1..];
      }
      if rest :| path + [47] + rest in inventory {
        var f := path + [47] + rest;
        assert f[..|path|] == path && f[|path|] == SLASH;
      }
    }
  }

  /** A directory's name may end in one slash, which does not count; a file's name is taken as it is. */
  lemma NameTaken(name: Name)
    ensures NameOf(false, name) == name && NameOf(true, name + [47]) == name
    ensures (name == [] || name[|name| - 1] != 47) ==> NameOf(true, name) == name
  {
    assert (name + [47])[..|name|] == name;
  }

  // --- Headers ---

  /** A member's header, byte for byte: its name, its mode, no owner, its size in ten octal digits, the pinned time, the
      sum of all its bytes with blanks for the sum itself, its kind, and the pinned format and device fields; zeros
      elsewhere. */
  lemma HeaderBytes(directory: bool, name: seq<byte>, size: nat)
    requires |name| < 100
    ensures var h := Header(directory, name, size);
      && h[..|name|] == name && (forall i :: |name| <= i < 100 ==> h[i] == 0)
      && h[100..108] == Ascii(if directory then "000755 \0" else "000644 \0")
      && (forall i :: 108 <= i < 124 ==> h[i] == 0)
      && h[124..136] == Octal(size, 10) + [32, 0]
      && h[136..148] == Ascii("3560116604 \0")
      && h[148..156] == Octal(Sum(h[..148]) + Sum(h[156..]) + 256, 6) + [32, 0]
      && h[156] == (if directory then '5' else '0') as int
      && (forall i :: 157 <= i < 257 ==> h[i] == 0)
      && h[257..265] == Ascii("ustar\0" + "00")
      && (forall i :: 265 <= i < 329 ==> h[i] == 0)
      && h[329..345] == Ascii("000000 \0" + "000000 \0")
      && forall i :: 345 <= i < 512 ==> h[i] == 0
  {
    var h := Header(directory, name, size);
    WrittenFields(directory, name, size);
    ChecksumIs(h);
    Modes();
    Literals();
    hide Header, Sum, Octal, MAGIC, DEVICE, MTIME;
    ZeroRange(h, 108, 124);
    ZeroRange(h, 157, 257);
    ZeroRange(h, 265, 329);
    ZeroRange(h, 345, 512);
    NameAndZeros(h, name);
  }

  lemma NameAndZeros(h: seq<byte>, name: seq<byte>)
    requires |h| == 512 && |name| < 100 && h[..100] == Padded(name)
    ensures h[..|name|] == name && forall i :: |name| <= i < 100 ==> h[i] == 0
  {
    assert h[..|name|] == h[..100][..|name|];
    assert forall i :: 0 <= i < 100 ==> h[i] == h[..100][i];
  }

  lemma ZeroRange(h: seq<byte>, a: nat, b: nat)
    requires a <= b <= |h| && h[a..b] == Zeros(b - a)
    ensures forall i :: a <= i < b ==> h[i] == 0
  {
    assert forall i :: a <= i < b ==> h[i] == h[a..b][i - a];
  }

  lemma Modes()
    ensures OctalField(Mode(true), 6) == Ascii("000755 \0") && OctalField(Mode(false), 6) == Ascii("000644 \0")
  {
    DirectoryMode();
    FileMode();
    hide Octal;
  }

  lemma DirectoryMode()
    ensures Octal(493, 6) == [48, 48, 48, 55, 53, 53]
  {
    NoDigits();
    hide Octal;
    OctalStep(7, 4);
    OctalStep(61, 5);
    OctalStep(493, 6);
  }

  lemma FileMode()
    ensures Octal(420, 6) == [48, 48, 48, 54, 52, 52]
  {
    NoDigits();
    hide Octal;
    OctalStep(6, 4);
    OctalStep(52, 5);
    OctalStep(420, 6);
  }

  lemma OctalStep(n: nat, w: nat)
    requires w > 0
    ensures Octal(n, w) == Octal(n / 8, w - 1) + [48 + n % 8]
  {
  }

  lemma NoDigits()
    ensures Octal(0, 3) == [48, 48, 48]
  {
    assert Octal(0, 0) == [];
    hide Octal;
    OctalStep(0, 1);
    OctalStep(0, 2);
    OctalStep(0, 3);
  }

  lemma Literals()
    ensures MTIME == Ascii("3560116604 \0") && MAGIC == Ascii("ustar\0" + "00") && DEVICE == Ascii("000000 \0" + "000000 \0")
  {
  }

  // --- Archives ---

  /** A list the reader may report: printable ASCII names of 1 to 99 bytes, all different; approved members; at most 256
      of them, at most 16 MiB in one and in all regular files, whole zero blocks of padding up to 10240 bytes, and at most
      20 MiB in all. */
  ghost predicate Allowed(ms: seq<Member>, padding: nat, inventory: set<Name>) {
    && (forall i :: 0 <= i < |ms| ==>
          && 1 <= |ms[i].rawName| <= 99 && (forall k :: 0 <= k < |ms[i].rawName| ==> 32 <= ms[i].rawName[k] <= 126)
          && |ms[i].payload| <= 16777216 && Approved(ms[i].directory, ms[i].rawName, |ms[i].payload|, inventory))
    && (forall i, j :: 0 <= i < j < |ms| ==>
          NameOf(ms[i].directory, ms[i].rawName) != NameOf(ms[j].directory, ms[j].rawName))
    && |ms| <= 256 && FileBytes(ms) <= 16777216 && padding <= 10240 && padding % 512 == 0 && |Serialize(ms, padding)| <= 20971520
  }

  /** The archive is the members' headers and payloads, each filled up with zeros to whole blocks, two zero blocks and the
      padding; the reader reports a list exactly when it is allowed and the archive is so written. */
  lemma ReadExactly(raw: seq<byte>, ms: seq<Member>, padding: nat, inventory: set<Name>)
    ensures ReadArchive(raw, inventory) == Read(ms, padding) <==> Allowed(ms, padding, inventory) && raw == Serialize(ms, padding)
  {
    ReaderInvertsWriter(raw, ms, padding, inventory);
    hide ReadArchive, Approved, Serialize, FileBytes;
  }

  /** Each member's block: its header, its payload and fewer than 512 zeros, to a whole number of blocks. */
  lemma BlockBytes(m: Member)
    requires |m.rawName| < 100
    ensures var b := Block(m); var n := |m.payload|;
      && |b| % 512 == 0 && 512 + n <= |b| < 512 + n + 512 && b[..512] == Header(m.directory, m.rawName, n)
      && b[512..512 + n] == m.payload && forall i :: 512 + n <= i < |b| ==> b[i] == 0
  {
    hide Header;
    BlockAligned(|m.payload|);
  }

  /** The bytes the limit counts are those of the regular files. */
  lemma {:induction false} FileBytesCount(ms: seq<Member>, m: Member)
    ensures FileBytes(ms + [m]) == FileBytes(ms) + if m.directory then 0 else |m.payload|
    ensures FileBytes([]) == 0
  {
    if ms == [] {
      assert [m][1..] == [] && ms + [m] == [m];
    } else {
      assert (ms + [m])[1..] == ms[1..] + [m];
      FileBytesCount(ms[1..], m);
    }
  }
}
