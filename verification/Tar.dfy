/** The strict archive reader (scripts/verify-npm-package.py) and the writer it inverts: POSIX.1 ustar
    members as the pinned npm writes them. */
module Tar {
  import opened Bytes
  import opened Options

  const MAX_ENTRIES: nat := 256
  const MAX_EXPANDED: nat := 16777216
  const MAX_TAR: nat := 20971520
  const MAX_END_PADDING: nat := 10240

  const SLASH: byte := 47
  const BACKSLASH: byte := 92
  const FILE_KIND: byte := 48
  const DIRECTORY_KIND: byte := 53
  const MTIME: seq<byte> := [51, 53, 54, 48, 49, 49, 54, 54, 48, 52, 32, 0]
  const MAGIC: seq<byte> := [117, 115, 116, 97, 114, 0, 48, 48]
  const DEVICE: seq<byte> := [48, 48, 48, 48, 48, 48, 32, 0, 48, 48, 48, 48, 48, 48, 32, 0]
  const PACKAGE: seq<byte> := [112, 97, 99, 107, 97, 103, 101]

  /** A physical member: a directory or a regular file, its name as stored, its payload. */
  datatype Member = Member(directory: bool, rawName: seq<byte>, payload: seq<byte>)

  function Zeros(n: nat): (z: seq<byte>)
    ensures |z| == n
  {
    seq(n, _ => 0)
  }

  predicate AllZero(s: seq<byte>) {
    forall i :: 0 <= i < |s| ==> s[i] == 0
  }

  lemma AllZeroIsZeros(s: seq<byte>)
    ensures AllZero(s) <==> s == Zeros(|s|)
  {
  }

  // --- Octal fields ---

  predicate OctalDigits(s: seq<byte>) {
    forall i :: 0 <= i < |s| ==> 48 <= s[i] <= 55
  }

  function OctalValue(s: seq<byte>): nat
    requires OctalDigits(s)
  {
    if |s| == 0 then 0 else 8 * OctalValue(s[..|s| - 1]) + (s[|s| - 1] - 48)
  }

  /** The low `w` octal digits of a number. */
  function Octal(n: nat, w: nat): (s: seq<byte>)
    ensures |s| == w && OctalDigits(s)
  {
    if w == 0 then [] else Octal(n / 8, w - 1) + [48 + n % 8]
  }

  function Pow8(w: nat): nat {
    if w == 0 then 1 else 8 * Pow8(w - 1)
  }

  lemma {:induction false} OctalRoundTrip(n: nat, w: nat)
    requires n < Pow8(w)
    ensures OctalValue(Octal(n, w)) == n
  {
    if w != 0 {
      OctalRoundTrip(n / 8, w - 1);
      assert Octal(n, w)[..w - 1] == Octal(n / 8, w - 1);
    }
  }

  lemma {:induction false} OctalCanonical(s: seq<byte>)
    requires OctalDigits(s)
    ensures OctalValue(s) < Pow8(|s|) && Octal(OctalValue(s), |s|) == s
  {
    if |s| != 0 {
      OctalCanonical(s[..|s| - 1]);
      assert s == s[..|s| - 1] + [s[|s| - 1]];
    }
  }

  /** `npm_octal`: octal digits, a space and a NUL, nothing else. */
  function NpmOctal(field: seq<byte>): Option<nat> {
    var n := |field| - 2;
    if n >= 1 && OctalDigits(field[..n]) && field[n] == SPACE && field[n + 1] == 0 then Some(OctalValue(field[..n]))
    else None
  }

  function OctalField(n: nat, w: nat): (s: seq<byte>)
    ensures |s| == w + 2
  {
    Octal(n, w) + [SPACE, 0]
  }

  /** A field of a given width reads as a number exactly when it is that number's one spelling. */
  lemma NpmOctalExact(field: seq<byte>, n: nat, w: nat)
    requires |field| == w + 2 && w >= 1
    ensures NpmOctal(field) == Some(n) <==> n < Pow8(w) && field == OctalField(n, w)
  {
    var f := OctalField(n, w);
    assert f[..w] == Octal(n, w);
    if n < Pow8(w) {
      OctalRoundTrip(n, w);
    }
    if NpmOctal(field) == Some(n) {
      OctalCanonical(field[..w]);
      assert field == field[..w] + [SPACE, 0];
    }
  }

  // --- Checksums ---

  function Sum(s: seq<byte>): nat {
    if |s| == 0 then 0 else s[0] + Sum(s[1..])
  }

  lemma {:induction false} SumBound(s: seq<byte>)
    ensures Sum(s) <= 255 * |s|
  {
    if |s| != 0 {
      SumBound(s[1..]);
    }
  }

  // --- The header layout ---

  function Padded(name: seq<byte>): (s: seq<byte>)
    requires |name| < 100
    ensures |s| == 100
  {
    name + Zeros(100 - |name|)
  }

  function Mode(directory: bool): nat {
    if directory then 493 else 420
  }

  /** Bytes 0 to 147: name, mode, owner fields, size and modification time. */
  function Before(directory: bool, name: seq<byte>, size: nat): (s: seq<byte>)
    requires |name| < 100
    ensures |s| == 148
  {
    Padded(name) + OctalField(Mode(directory), 6) + Zeros(16) + OctalField(size, 10) + MTIME
  }

  /** Bytes 156 to 511: kind, link name, magic, owner names, device numbers and prefix. */
  function After(directory: bool): (s: seq<byte>)
    ensures |s| == 356
  {
    [if directory then DIRECTORY_KIND else FILE_KIND] + Zeros(100) + MAGIC + Zeros(64) + DEVICE + Zeros(167)
  }

  function Checksum(before: seq<byte>, after: seq<byte>): nat {
    Sum(before) + 8 * 32 + Sum(after)
  }

  function Header(directory: bool, name: seq<byte>, size: nat): (s: seq<byte>)
    requires |name| < 100
    ensures |s| == 512
  {
    var before, after := Before(directory, name, size), After(directory);
    before + OctalField(Checksum(before, after), 6) + after
  }

  predicate Printable(name: seq<byte>) {
    forall i :: 0 <= i < |name| ==> 32 <= name[i] < 127
  }

  datatype HeaderFields = HeaderFields(directory: bool, rawName: seq<byte>, size: nat)

  /** The reader's checks on one 512-byte header, field by field. */
  function ParseHeader(h: seq<byte>): Option<HeaderFields>
    requires |h| == 512
  {
    var checksum := NpmOctal(h[148..156]);
    if checksum.None? || checksum.value != Sum(h[..148]) + 8 * 32 + Sum(h[156..]) then None
    else if h[156] != FILE_KIND && h[156] != DIRECTORY_KIND then None
    else if h[257..265] != MAGIC then None
    else if !AllZero(h[108..124]) || !AllZero(h[157..257]) || !AllZero(h[265..329]) || !AllZero(h[345..512]) then None
    else if h[329..345] != DEVICE || h[136..148] != MTIME then None
    else
      var directory := h[156] == DIRECTORY_KIND;
      if NpmOctal(h[100..108]) != Some(Mode(directory)) then None else
      var size := NpmOctal(h[124..136]);
      if size.None? || size.value > MAX_EXPANDED then None else
      var n := IndexOf(h[..100], 0);
      if n == 100 || n == 0 || !AllZero(h[n..100]) || !Printable(h[..n]) then None
      else Some(HeaderFields(directory, h[..n], size.value))
  }

  predicate NameFits(name: seq<byte>) {
    0 < |name| < 100 && Printable(name)
  }

  /** A sequence of 512 bytes is its twelve fields. */
  lemma Fields(h: seq<byte>)
    requires |h| == 512
    ensures h[..148] == h[..100] + h[100..108] + h[108..124] + h[124..136] + h[136..148]
    ensures h[156..] == [h[156]] + h[157..257] + h[257..265] + h[265..329] + h[329..345] + h[345..512]
    ensures h == h[..148] + h[148..156] + h[156..]
  {
  }

  lemma BeforeFields(directory: bool, name: seq<byte>, size: nat)
    requires |name| < 100
    ensures var b := Before(directory, name, size);
      && b[..100] == Padded(name) && b[100..108] == OctalField(Mode(directory), 6) && b[108..124] == Zeros(16)
      && b[124..136] == OctalField(size, 10) && b[136..148] == MTIME
  {
  }

  lemma AfterFields(directory: bool)
    ensures var a := After(directory);
      && a[0] == (if directory then DIRECTORY_KIND else FILE_KIND) && a[1..101] == Zeros(100) && a[101..109] == MAGIC
      && a[109..173] == Zeros(64) && a[173..189] == DEVICE && a[189..356] == Zeros(167)
  {
  }

  lemma HeaderSlices(directory: bool, name: seq<byte>, size: nat)
    requires |name| < 100
    ensures var h := Header(directory, name, size);
      var b, a := Before(directory, name, size), After(directory);
      && h[..148] == b && h[148..156] == OctalField(Checksum(b, a), 6) && h[156..] == a
  {
  }

  /** Six octal digits always hold a header's checksum. */
  lemma ChecksumFits(before: seq<byte>, after: seq<byte>)
    requires |before| == 148 && |after| == 356
    ensures Checksum(before, after) < Pow8(6)
  {
    SumBound(before);
    SumBound(after);
    assert Pow8(6) == 262144;
  }

  lemma {:induction false} PaddedName(name: seq<byte>)
    requires NameFits(name)
    ensures var p := Padded(name);
      IndexOf(p, 0) == |name| && p[..|name|] == name && AllZero(p[|name|..])
  {
    var p := Padded(name);
    assert forall i :: 0 <= i < |name| ==> p[i] == name[i] != 0;
    assert p[|name|] == 0;
  }

  /** The reader accepts a header exactly when it is, byte for byte, the header the writer prints for
      what the reader reports. */
  lemma HeaderWritten(directory: bool, name: seq<byte>, size: nat)
    requires NameFits(name) && size <= MAX_EXPANDED
    ensures ParseHeader(Header(directory, name, size)) == Some(HeaderFields(directory, name, size))
  {
    hide Before, After, Header, Checksum, NpmOctal, OctalField, Padded, Sum, Zeros, Pow8, Printable, IndexOf;
    var h := Header(directory, name, size);
    WrittenFields(directory, name, size);
    ChecksumFits(h[..148], h[156..]);
    assert Pow8(6) == 262144 && Pow8(10) == 1073741824 by { Powers(); }
    NpmOctalExact(h[148..156], Checksum(h[..148], h[156..]), 6);
    NpmOctalExact(h[100..108], Mode(directory), 6);
    NpmOctalExact(h[124..136], size, 10);
    ChecksumIs(h);
    PaddedName(name);
    ZeroFields();
    assert h[|name|..100] == h[..100][|name|..] && h[..|name|] == h[..100][..|name|];
    hide AllZero;
  }

  lemma Powers()
    ensures Pow8(6) == 262144 && Pow8(10) == 1073741824
  {
  }

  lemma ChecksumIs(h: seq<byte>)
    requires |h| == 512
    ensures Checksum(h[..148], h[156..]) == Sum(h[..148]) + 8 * 32 + Sum(h[156..])
  {
    hide Sum;
  }

  lemma ZeroFields()
    ensures AllZero(Zeros(16)) && AllZero(Zeros(100)) && AllZero(Zeros(64)) && AllZero(Zeros(167))
  {
  }

  /** What a written header holds, field by field. */
  lemma WrittenFields(directory: bool, name: seq<byte>, size: nat)
    requires |name| < 100
    ensures var h := Header(directory, name, size);
      && h[..100] == Padded(name) && h[100..108] == OctalField(Mode(directory), 6) && h[108..124] == Zeros(16)
      && h[124..136] == OctalField(size, 10) && h[136..148] == MTIME
      && h[148..156] == OctalField(Checksum(h[..148], h[156..]), 6)
      && h[156] == (if directory then DIRECTORY_KIND else FILE_KIND) && h[157..257] == Zeros(100) && h[257..265] == MAGIC
      && h[265..329] == Zeros(64) && h[329..345] == DEVICE && h[345..512] == Zeros(167)
  {
    hide Before, After, Header, Checksum, OctalField, Padded, Zeros;
    var h := Header(directory, name, size);
    HeaderSlices(directory, name, size);
    BeforeFields(directory, name, size);
    AfterFields(directory);
    SliceOfSlice(h);
  }

  lemma SliceOfSlice(h: seq<byte>)
    requires |h| == 512
    ensures var b, a := h[..148], h[156..];
      && b[..100] == h[..100] && b[100..108] == h[100..108] && b[108..124] == h[108..124]
      && b[124..136] == h[124..136] && b[136..148] == h[136..148]
      && a[0] == h[156] && a[1..101] == h[157..257] && a[101..109] == h[257..265]
      && a[109..173] == h[265..329] && a[173..189] == h[329..345] && a[189..356] == h[345..512]
  {
  }

  lemma BeforeRead(h: seq<byte>, directory: bool, name: seq<byte>, size: nat)
    requires |h| == 512 && |name| < 100
    requires h[..100] == Padded(name) && h[100..108] == OctalField(Mode(directory), 6)
    requires AllZero(h[108..124]) && h[124..136] == OctalField(size, 10) && h[136..148] == MTIME
    ensures h[..148] == Before(directory, name, size)
  {
    hide OctalField, Padded;
    Fields(h);
    assert h[108..124] == Zeros(16);
  }

  lemma AfterRead(h: seq<byte>, directory: bool)
    requires |h| == 512 && h[156] == (if directory then DIRECTORY_KIND else FILE_KIND)
    requires AllZero(h[157..257]) && h[257..265] == MAGIC && AllZero(h[265..329]) && h[329..345] == DEVICE && AllZero(h[345..512])
    ensures h[156..] == After(directory)
  {
    Fields(h);
    assert h[157..257] == Zeros(100) && h[265..329] == Zeros(64) && h[345..512] == Zeros(167);
  }

  lemma NameRead(h: seq<byte>, n: nat)
    requires |h| == 512 && n < 100 && AllZero(h[n..100])
    ensures h[..100] == Padded(h[..n])
  {
    assert h[..100] == h[..n] + h[n..100];
    assert h[n..100] == Zeros(100 - n);
  }

  lemma HeaderRead(h: seq<byte>)
    requires |h| == 512 && ParseHeader(h).Some?
    ensures var f := ParseHeader(h).value;
      NameFits(f.rawName) && f.size <= MAX_EXPANDED && h == Header(f.directory, f.rawName, f.size)
  {
    var f := ParseHeader(h).value;
    NpmOctalExact(h[100..108], Mode(f.directory), 6);
    NpmOctalExact(h[124..136], f.size, 10);
    NpmOctalExact(h[148..156], Checksum(h[..148], h[156..]), 6);
    NameRead(h, IndexOf(h[..100], 0));
    hide NpmOctal, OctalField, Padded, Sum, Before, After;
    BeforeRead(h, f.directory, f.rawName, f.size);
    AfterRead(h, f.directory);
    Fields(h);
  }

  // --- Names ---

  type Name = seq<byte>

  function Split(s: Name): (parts: seq<Name>)
    ensures |parts| >= 1
  {
    var n := IndexOf(s, SLASH);
    if n == |s| then [s] else [s[..n]] + Split(s[n + 1..])
  }

  function JoinPath(parts: seq<Name>): Name {
    if |parts| == 0 then [] else if |parts| == 1 then parts[0] else parts[0] + [SLASH] + JoinPath(parts[1..])
  }

  lemma {:induction false} JoinSplit(s: Name)
    ensures JoinPath(Split(s)) == s
  {
    var n := IndexOf(s, SLASH);
    if n < |s| {
      JoinSplit(s[n + 1..]);
      assert Split(s)[1..] == Split(s[n + 1..]);
      assert s == s[..n] + [SLASH] + s[n + 1..];
    }
  }

  /** The logical name: a directory's one trailing slash is dropped. */
  function NameOf(directory: bool, rawName: Name): Name {
    if directory && |rawName| != 0 && rawName[|rawName| - 1] == SLASH then rawName[..|rawName| - 1] else rawName
  }

  function Relative(name: Name): Name {
    JoinPath(Split(name)[1..])
  }

  predicate InsidePackage(name: Name) {
    var parts := Split(name);
    BACKSLASH !in name && parts[0] == PACKAGE && forall i :: 0 <= i < |parts| ==> parts[i] !in {[], [46], [46, 46]}
  }

  /** `package` and the parents of every inventory file below it. */
  function Directories(inventory: set<Name>): set<Name> {
    {PACKAGE} + set f, i | f in inventory && 0 <= i < |f| && f[i] == SLASH :: PACKAGE + [SLASH] + f[..i]
  }

  /** What the reader asks of one member's name and size against the inventory. */
  predicate Approved(directory: bool, rawName: Name, size: nat, inventory: set<Name>) {
    var name := NameOf(directory, rawName);
    && InsidePackage(name)
    && (if directory then size == 0 && name in Directories(inventory) else Relative(name) in inventory)
  }

  /** A file's name is the package prefix and its path inside, so distinct files have distinct paths. */
  lemma RelativeInjective(a: Name, b: Name, inventory: set<Name>)
    requires Approved(false, a, 0, inventory) && Approved(false, b, 0, inventory) && [] !in inventory
    requires Relative(a) == Relative(b)
    ensures a == b
  {
    JoinSplit(a);
    JoinSplit(b);
    assert |Split(a)| > 1 && |Split(b)| > 1;
  }

  // --- Archives ---

  function Alignment(n: nat): (r: nat)
    ensures r < 512 && (n + r) % 512 == 0
  {
    (0 - n) % 512
  }

  /** A member's block: its header and its payload, padded to whole 512-byte blocks. */
  function BlockSize(n: nat): nat {
    512 + n + Alignment(n)
  }

  function Block(m: Member): (s: seq<byte>)
    requires |m.rawName| < 100
    ensures |s| == BlockSize(|m.payload|)
  {
    Header(m.directory, m.rawName, |m.payload|) + m.payload + Zeros(Alignment(|m.payload|))
  }

  predicate Writable(ms: seq<Member>) {
    forall i :: 0 <= i < |ms| ==> NameFits(ms[i].rawName)
  }

  function Blocks(ms: seq<Member>): seq<byte>
    requires Writable(ms)
  {
    if |ms| == 0 then [] else Block(ms[0]) + Blocks(ms[1..])
  }

  /** The writer: the members' blocks, the two zero blocks that end an archive, and zero padding. */
  function Serialize(ms: seq<Member>, padding: nat): seq<byte>
    requires Writable(ms)
  {
    Blocks(ms) + Zeros(1024 + padding)
  }

  function FileBytes(ms: seq<Member>): nat {
    if |ms| == 0 then 0 else (if ms[0].directory then 0 else |ms[0].payload|) + FileBytes(ms[1..])
  }

  predicate DistinctNames(ms: seq<Member>) {
    forall i, j :: 0 <= i < j < |ms| ==> NameOf(ms[i].directory, ms[i].rawName) != NameOf(ms[j].directory, ms[j].rawName)
  }

  predicate MemberFits(m: Member, inventory: set<Name>) {
    NameFits(m.rawName) && |m.payload| <= MAX_EXPANDED && Approved(m.directory, m.rawName, |m.payload|, inventory)
  }

  /** The archives the format and the inventory allow. */
  predicate Acceptable(ms: seq<Member>, padding: nat, inventory: set<Name>) {
    && (forall i :: 0 <= i < |ms| ==> MemberFits(ms[i], inventory))
    && DistinctNames(ms) && |ms| <= MAX_ENTRIES && FileBytes(ms) <= MAX_EXPANDED
    && padding <= MAX_END_PADDING && padding % 512 == 0
    && |Serialize(ms, padding)| <= MAX_TAR
  }

  /** The same, one member at a time, as the reader meets them. */
  predicate Fitting(ms: seq<Member>, seen: set<Name>, expanded: nat, inventory: set<Name>) {
    |ms| != 0 ==>
      && NameFits(ms[0].rawName) && |ms[0].payload| <= MAX_EXPANDED
      && Admitted(ms[0], seen, expanded, inventory)
      && Fitting(ms[1..], Seen(ms[0], seen), Total(ms[0], expanded), inventory)
  }

  /** The result: every file's payload under its path inside the package. */
  function Files(ms: seq<Member>): map<Name, seq<byte>> {
    if |ms| == 0 then map[]
    else
      var m := ms[|ms| - 1];
      var before := Files(ms[..|ms| - 1]);
      if m.directory then before else before[Relative(NameOf(false, m.rawName)) := m.payload]
  }

  // --- The reader ---

  datatype Reading = Refused | Read(members: seq<Member>, padding: nat)

  function Total(m: Member, expanded: nat): nat {
    if m.directory then expanded else expanded + |m.payload|
  }

  function Seen(m: Member, seen: set<Name>): set<Name> {
    seen + {NameOf(m.directory, m.rawName)}
  }

  /** What the members before it leave room for. */
  predicate Admitted(m: Member, seen: set<Name>, expanded: nat, inventory: set<Name>) {
    |seen| < MAX_ENTRIES && NameOf(m.directory, m.rawName) !in seen
    && Approved(m.directory, m.rawName, |m.payload|, inventory) && Total(m, expanded) <= MAX_EXPANDED
  }

  /** The member at the front, if its header, its payload and its zero fill are all there. */
  function TakeBlock(rest: seq<byte>): (r: Option<Member>)
    requires |rest| >= 512
    ensures r.Some? ==> BlockSize(|r.value.payload|) <= |rest|
  {
    match ParseHeader(rest[..512])
    case None => None
    case Some(f) =>
      var aligned := BlockSize(f.size);
      if aligned > |rest| || !AllZero(rest[512 + f.size..aligned]) then None
      else Some(Member(f.directory, f.rawName, rest[512..512 + f.size]))
  }

  /** The reader on what is left of the archive. */
  function ReadFrom(rest: seq<byte>, seen: set<Name>, expanded: nat, inventory: set<Name>): Reading
    decreases |rest|
  {
    if |rest| < 512 then Refused
    else if AllZero(rest[..512]) then
      if |rest| >= 1024 && AllZero(rest) && |rest| - 1024 <= MAX_END_PADDING then Read([], |rest| - 1024) else Refused
    else match TakeBlock(rest)
      case None => Refused
      case Some(m) =>
        if !Admitted(m, seen, expanded, inventory) then Refused
        else match ReadFrom(rest[BlockSize(|m.payload|)..], Seen(m, seen), Total(m, expanded), inventory)
          case Refused => Refused
          case Read(ms, padding) => Read([m] + ms, padding)
  }

  /** A block is taken exactly when the archive begins with that member's serialization. */
  lemma TakenIsBlock(rest: seq<byte>)
    requires |rest| >= 512 && TakeBlock(rest).Some?
    ensures var m := TakeBlock(rest).value;
      NameFits(m.rawName) && |m.payload| <= MAX_EXPANDED && rest == Block(m) + rest[BlockSize(|m.payload|)..]
  {
    hide ParseHeader, Header, Zeros, AllZero, Alignment, NameFits;
    var h := rest[..512];
    var f := ParseHeader(h).value;
    HeaderRead(h);
    var aligned := BlockSize(f.size);
    AllZeroIsZeros(rest[512 + f.size..aligned]);
    FourParts(rest, 512, 512 + f.size, aligned);
  }

  lemma FourParts(s: seq<byte>, i: nat, j: nat, k: nat)
    requires i <= j <= k <= |s|
    ensures s == s[..i] + s[i..j] + s[j..k] + s[k..]
  {
  }

  lemma BlockIsTaken(m: Member, tail: seq<byte>)
    requires NameFits(m.rawName) && |m.payload| <= MAX_EXPANDED
    ensures var rest := Block(m) + tail;
      TakeBlock(rest) == Some(m) && !AllZero(rest[..512]) && rest[BlockSize(|m.payload|)..] == tail
  {
    hide ParseHeader, Header, Alignment;
    BlockSlices(m, tail);
    HeaderWritten(m.directory, m.rawName, |m.payload|);
    HeaderNonzero(m.directory, m.rawName, |m.payload|);
    AllZeroIsZeros(Zeros(Alignment(|m.payload|)));
    hide AllZero, Zeros, Block, NameFits;
  }

  lemma BlockSlices(m: Member, tail: seq<byte>)
    requires |m.rawName| < 100
    ensures var rest, size := Block(m) + tail, |m.payload|;
      && rest[..512] == Header(m.directory, m.rawName, size) && rest[512..512 + size] == m.payload
      && rest[512 + size..BlockSize(size)] == Zeros(Alignment(size)) && rest[BlockSize(size)..] == tail
  {
    hide Header, Alignment, Zeros;
  }

  /** A member's header is never mistaken for an end marker. */
  lemma HeaderNonzero(directory: bool, name: Name, size: nat)
    requires NameFits(name)
    ensures !AllZero(Header(directory, name, size))
  {
    var h := Header(directory, name, size);
    HeaderSlices(directory, name, size);
    BeforeFields(directory, name, size);
    assert h[..148][..100][0] == name[0];
  }

  lemma {:induction false} FittingWritable(ms: seq<Member>, seen: set<Name>, expanded: nat, inventory: set<Name>)
    requires Fitting(ms, seen, expanded, inventory)
    ensures Writable(ms)
  {
    if |ms| != 0 {
      FittingWritable(ms[1..], Seen(ms[0], seen), Total(ms[0], expanded), inventory);
      forall i | 0 <= i < |ms| ensures NameFits(ms[i].rawName) {
        assert i > 0 ==> ms[i] == ms[1..][i - 1];
      }
    }
  }

  /** No hidden bytes: what the reader accepts is exactly the serialization of what it reports. */
  lemma {:induction false} ReadIsSerialization(rest: seq<byte>, seen: set<Name>, expanded: nat, inventory: set<Name>)
    requires ReadFrom(rest, seen, expanded, inventory).Read?
    ensures var r := ReadFrom(rest, seen, expanded, inventory);
      && Fitting(r.members, seen, expanded, inventory) && Writable(r.members)
      && r.padding <= MAX_END_PADDING
      && rest == Serialize(r.members, r.padding)
    decreases |rest|
  {
    var r := ReadFrom(rest, seen, expanded, inventory);
    if AllZero(rest[..512]) {
      AllZeroIsZeros(rest);
      assert Blocks([]) == [];
    } else {
      var m := TakeBlock(rest).value;
      var tail := rest[BlockSize(|m.payload|)..];
      TakenIsBlock(rest);
      hide TakeBlock, Block, Admitted, AllZero, Zeros, BlockSize;
      var rec := ReadFrom(tail, Seen(m, seen), Total(m, expanded), inventory);
      ReadIsSerialization(tail, Seen(m, seen), Total(m, expanded), inventory);
      assert r.members == [m] + rec.members && r.members[1..] == rec.members;
      FittingWritable(r.members, seen, expanded, inventory);
      SerializeFirst(r.members, r.padding);
    }
  }

  lemma SerializeFirst(ms: seq<Member>, padding: nat)
    requires |ms| != 0 && Writable(ms)
    ensures Serialize(ms, padding) == Block(ms[0]) + Serialize(ms[1..], padding)
  {
    hide Block, Zeros;
  }

  /** Every fitting list, serialized, is accepted and read back. */
  lemma {:induction false} SerializationIsRead(ms: seq<Member>, padding: nat, seen: set<Name>, expanded: nat, inventory: set<Name>)
    requires Fitting(ms, seen, expanded, inventory) && Writable(ms) && padding <= MAX_END_PADDING
    ensures ReadFrom(Serialize(ms, padding), seen, expanded, inventory) == Read(ms, padding)
    decreases |ms|
  {
    hide TakeBlock, Block, Admitted, AllZero, Zeros, Serialize, BlockSize, NameFits;
    if |ms| == 0 {
      PaddingIsRead(padding, seen, expanded, inventory);
    } else {
      var m := ms[0];
      SerializationIsRead(ms[1..], padding, Seen(m, seen), Total(m, expanded), inventory);
      SerializeFirst(ms, padding);
      BlockIsTaken(m, Serialize(ms[1..], padding));
      assert [m] + ms[1..] == ms;
    }
  }

  lemma PaddingIsRead(padding: nat, seen: set<Name>, expanded: nat, inventory: set<Name>)
    requires padding <= MAX_END_PADDING
    ensures ReadFrom(Serialize([], padding), seen, expanded, inventory) == Read([], padding)
  {
    var raw := Serialize([], padding);
    assert raw == Zeros(1024 + padding);
    ReadEnds(raw, seen, expanded, inventory);
    hide ReadFrom, TakeBlock, Admitted;
  }

  lemma {:induction false} FittingSize(ms: seq<Member>, seen: set<Name>, expanded: nat, inventory: set<Name>)
    requires Fitting(ms, seen, expanded, inventory) && expanded <= MAX_EXPANDED && |seen| <= MAX_ENTRIES
    ensures |seen| + |ms| <= MAX_ENTRIES && expanded + FileBytes(ms) <= MAX_EXPANDED
    ensures forall i :: 0 <= i < |ms| ==> MemberFits(ms[i], inventory) && NameOf(ms[i].directory, ms[i].rawName) !in seen
    ensures DistinctNames(ms)
  {
    hide Approved;
    if |ms| != 0 {
      var m, rest := ms[0], ms[1..];
      FittingSize(rest, Seen(m, seen), Total(m, expanded), inventory);
      forall i | 0 <= i < |ms|
        ensures MemberFits(ms[i], inventory) && NameOf(ms[i].directory, ms[i].rawName) !in seen
      {
        assert i > 0 ==> ms[i] == rest[i - 1];
      }
      forall i, j | 0 <= i < j < |ms|
        ensures NameOf(ms[i].directory, ms[i].rawName) != NameOf(ms[j].directory, ms[j].rawName)
      {
        assert ms[j] == rest[j - 1];
        assert NameOf(rest[j - 1].directory, rest[j - 1].rawName) !in Seen(m, seen);
        if i > 0 {
          assert ms[i] == rest[i - 1];
        }
      }
    }
  }

  lemma {:induction false} AcceptableFits(ms: seq<Member>, seen: set<Name>, expanded: nat, inventory: set<Name>)
    requires |seen| + |ms| <= MAX_ENTRIES && expanded + FileBytes(ms) <= MAX_EXPANDED
    requires forall i :: 0 <= i < |ms| ==> MemberFits(ms[i], inventory) && NameOf(ms[i].directory, ms[i].rawName) !in seen
    requires DistinctNames(ms)
    ensures Fitting(ms, seen, expanded, inventory)
  {
    hide Approved;
    if |ms| != 0 {
      var m, rest := ms[0], ms[1..];
      assert MemberFits(m, inventory);
      forall i | 0 <= i < |rest|
        ensures MemberFits(rest[i], inventory) && NameOf(rest[i].directory, rest[i].rawName) !in Seen(m, seen)
      {
        assert rest[i] == ms[i + 1];
      }
      forall i, j | 0 <= i < j < |rest|
        ensures NameOf(rest[i].directory, rest[i].rawName) != NameOf(rest[j].directory, rest[j].rawName)
      {
        assert rest[i] == ms[i + 1] && rest[j] == ms[j + 1];
      }
      AcceptableFits(rest, Seen(m, seen), Total(m, expanded), inventory);
    }
  }

  lemma {:induction false} BlocksAligned(ms: seq<Member>)
    requires Writable(ms)
    ensures |Blocks(ms)| % 512 == 0
  {
    if |ms| != 0 {
      BlocksAligned(ms[1..]);
      hide Block, BlockSize;
      var block, rest := |Block(ms[0])|, |Blocks(ms[1..])|;
      BlockAligned(|ms[0].payload|);
      assert |Blocks(ms)| == block + rest;
      AlignedSum(block, rest);
    }
  }

  lemma BlockAligned(n: nat)
    ensures BlockSize(n) % 512 == 0
  {
    AlignedSum(512, n + Alignment(n));
  }

  lemma AlignedSum(a: nat, b: nat)
    requires a % 512 == 0 && b % 512 == 0
    ensures (a + b) % 512 == 0
  {
  }

  /** The reader on a whole archive. */
  function ReadArchive(raw: seq<byte>, inventory: set<Name>): Reading {
    if |raw| > MAX_TAR || |raw| % 512 != 0 then Refused else ReadFrom(raw, {}, 0, inventory)
  }

  lemma AcceptedIsSerialization(raw: seq<byte>, ms: seq<Member>, padding: nat, inventory: set<Name>)
    requires ReadArchive(raw, inventory) == Read(ms, padding)
    ensures Acceptable(ms, padding, inventory) && raw == Serialize(ms, padding)
  {
    hide Approved, Block, ReadFrom, Blocks, DistinctNames, Zeros;
    ReadIsSerialization(raw, {}, 0, inventory);
    FittingSize(ms, {}, 0, inventory);
    BlocksAligned(ms);
  }

  lemma SerializationIsAccepted(raw: seq<byte>, ms: seq<Member>, padding: nat, inventory: set<Name>)
    requires Acceptable(ms, padding, inventory) && raw == Serialize(ms, padding)
    ensures ReadArchive(raw, inventory) == Read(ms, padding)
  {
    hide Approved, Block, ReadFrom, Blocks, DistinctNames, Zeros;
    AcceptableFits(ms, {}, 0, inventory);
    FittingWritable(ms, {}, 0, inventory);
    SerializationIsRead(ms, padding, {}, 0, inventory);
    BlocksAligned(ms);
  }

  /** Reader and writer undo each other: an archive is read as a list exactly when it is that list's
      serialization and the list is one the inventory and the limits allow. */
  lemma ReaderInvertsWriter(raw: seq<byte>, ms: seq<Member>, padding: nat, inventory: set<Name>)
    ensures ReadArchive(raw, inventory) == Read(ms, padding) <==>
            Acceptable(ms, padding, inventory) && raw == Serialize(ms, padding)
  {
    hide ReadArchive, Serialize;
    if ReadArchive(raw, inventory) == Read(ms, padding) {
      AcceptedIsSerialization(raw, ms, padding, inventory);
    } else if Acceptable(ms, padding, inventory) && raw == Serialize(ms, padding) {
      SerializationIsAccepted(raw, ms, padding, inventory);
    }
  }

  /** Two allowed archives with the same bytes are the same list. */
  lemma SerializeInjective(a: seq<Member>, p: nat, b: seq<Member>, q: nat, inventory: set<Name>)
    requires Acceptable(a, p, inventory) && Acceptable(b, q, inventory)
    requires Serialize(a, p) == Serialize(b, q)
    ensures a == b && p == q
  {
    ReaderInvertsWriter(Serialize(a, p), a, p, inventory);
    ReaderInvertsWriter(Serialize(a, p), b, q, inventory);
  }

  function Prepend(taken: seq<Member>, r: Reading): Reading {
    match r case Refused => Refused case Read(ms, padding) => Read(taken + ms, padding)
  }

  lemma PrependOne(taken: seq<Member>, m: Member, r: Reading)
    ensures Prepend(taken, Prepend([m], r)) == Prepend(taken + [m], r)
  {
    if r.Read? {
      assert taken + ([m] + r.members) == taken + [m] + r.members;
    }
  }

  /** `physical_files`: the loop over physical headers. It returns the payloads of the one allowed list
      whose serialization the archive is, and refuses every other input. */
  method PhysicalFiles(raw: seq<byte>, inventory: set<Name>) returns (r: Option<map<Name, seq<byte>>>)
    ensures r.Some? <==> exists ms, padding :: Acceptable(ms, padding, inventory) && raw == Serialize(ms, padding)
    ensures forall ms, padding :: Acceptable(ms, padding, inventory) && raw == Serialize(ms, padding) ==> r == Some(Files(ms))
  {
    r := ScanArchive(raw, inventory);
    var reading := ReadArchive(raw, inventory);
    if reading.Read? {
      ReaderInvertsWriter(raw, reading.members, reading.padding, inventory);
    }
    forall ms, padding | Acceptable(ms, padding, inventory) && raw == Serialize(ms, padding)
      ensures reading == Read(ms, padding)
    {
      ReaderInvertsWriter(raw, ms, padding, inventory);
    }
  }

  lemma PrependNothing(r: Reading)
    ensures Prepend([], r) == r
  {
  }

  lemma ReadShort(rest: seq<byte>, seen: set<Name>, expanded: nat, inventory: set<Name>)
    requires |rest| < 512
    ensures ReadFrom(rest, seen, expanded, inventory) == Refused
  {
  }

  /** Where the reading stops: at zero blocks, or at a block that is refused. */
  lemma ReadEnds(rest: seq<byte>, seen: set<Name>, expanded: nat, inventory: set<Name>)
    requires |rest| >= 512
    ensures AllZero(rest[..512]) ==>
      ReadFrom(rest, seen, expanded, inventory) ==
        if |rest| >= 1024 && AllZero(rest) && |rest| - 1024 <= MAX_END_PADDING then Read([], |rest| - 1024) else Refused
    ensures !AllZero(rest[..512]) && (TakeBlock(rest).None? || !Admitted(TakeBlock(rest).value, seen, expanded, inventory)) ==>
      ReadFrom(rest, seen, expanded, inventory) == Refused
  {
    hide AllZero, TakeBlock, Admitted;
  }

  /** One block more. */
  lemma ReadTakes(taken: seq<Member>, rest: seq<byte>, seen: set<Name>, expanded: nat, inventory: set<Name>)
    requires |rest| >= 512 && !AllZero(rest[..512])
    requires TakeBlock(rest).Some? && Admitted(TakeBlock(rest).value, seen, expanded, inventory)
    ensures var m := TakeBlock(rest).value;
      Prepend(taken, ReadFrom(rest, seen, expanded, inventory))
      == Prepend(taken + [m], ReadFrom(rest[BlockSize(|m.payload|)..], Seen(m, seen), Total(m, expanded), inventory))
  {
    hide AllZero, TakeBlock, Admitted, BlockSize;
    var m := TakeBlock(rest).value;
    var after := ReadFrom(rest[BlockSize(|m.payload|)..], Seen(m, seen), Total(m, expanded), inventory);
    assert ReadFrom(rest, seen, expanded, inventory) == Prepend([m], after);
    PrependOne(taken, m, after);
  }

  lemma FilesSnoc(taken: seq<Member>, m: Member)
    ensures Files(taken + [m]) == if m.directory then Files(taken) else Files(taken)[Relative(m.rawName) := m.payload]
  {
    hide Relative;
    assert (taken + [m])[..|taken|] == taken;
  }

  method ScanArchive(raw: seq<byte>, inventory: set<Name>) returns (r: Option<map<Name, seq<byte>>>)
    ensures match ReadArchive(raw, inventory)
            case Refused => r == None
            case Read(ms, _) => r == Some(Files(ms))
  {
    hide ParseHeader, Approved, BlockSize, AllZero, ReadFrom, TakeBlock, Admitted;
    if |raw| > MAX_TAR || |raw| % 512 != 0 {
      return None;
    }
    var files: map<Name, seq<byte>>, seen: set<Name> := map[], {};
    var expanded: nat, offset: nat := 0, 0;
    ghost var taken: seq<Member> := [];
    assert raw[0..] == raw;
    PrependNothing(ReadFrom(raw, {}, 0, inventory));
    while offset + 512 <= |raw|
      invariant offset <= |raw| && files == Files(taken)
      invariant ReadFrom(raw, {}, 0, inventory) == Prepend(taken, ReadFrom(raw[offset..], seen, expanded, inventory))
      decreases |raw| - offset
    {
      var rest := raw[offset..];
      ReadEnds(rest, seen, expanded, inventory);
      if AllZero(rest[..512]) {
        if |rest| < 1024 || !AllZero(rest) || |rest| - 1024 > MAX_END_PADDING {
          return None;
        }
        assert taken + [] == taken;
        return Some(files);
      }
      var block := TakeBlock(rest);
      if block.None? || !Admitted(block.value, seen, expanded, inventory) {
        return None;
      }
      var m := block.value;
      ReadTakes(taken, rest, seen, expanded, inventory);
      assert raw[offset + BlockSize(|m.payload|)..] == rest[BlockSize(|m.payload|)..];
      FilesSnoc(taken, m);
      taken := taken + [m];
      if !m.directory {
        files := files[Relative(NameOf(false, m.rawName)) := m.payload];
        expanded := expanded + |m.payload|;
      }
      seen := seen + {NameOf(m.directory, m.rawName)};
      BlockSizePositive(|m.payload|);
      offset := offset + BlockSize(|m.payload|);
    }
    ReadShort(raw[offset..], seen, expanded, inventory);
    return None;
  }

  lemma BlockSizePositive(n: nat)
    ensures BlockSize(n) >= 512
  {
  }

  /** Nothing is lost or overwritten: the result holds every regular file's payload under its own path,
      and no other path. */
  lemma {:induction false} FilesExact(ms: seq<Member>, inventory: set<Name>)
    requires forall i :: 0 <= i < |ms| ==> MemberFits(ms[i], inventory)
    requires DistinctNames(ms) && [] !in inventory
    ensures forall i :: 0 <= i < |ms| && !ms[i].directory ==>
              Relative(ms[i].rawName) in Files(ms) && Files(ms)[Relative(ms[i].rawName)] == ms[i].payload
    ensures forall path :: path in Files(ms) ==> HasPath(ms, path)
  {
    hide Relative, Approved, MemberFits;
    if |ms| != 0 {
      var n := |ms| - 1;
      var front, m := ms[..n], ms[n];
      FilesExact(front, inventory);
      forall i | 0 <= i < |ms| && !ms[i].directory
        ensures Relative(ms[i].rawName) in Files(ms) && Files(ms)[Relative(ms[i].rawName)] == ms[i].payload
      {
        if i < n {
          assert ms[i] == front[i];
          if !m.directory {
            PathsDiffer(ms, i, n, inventory);
          }
        }
      }
      forall path | path in Files(ms)
        ensures HasPath(ms, path)
      {
        if path in Files(front) {
          var i :| 0 <= i < |front| && !front[i].directory && Relative(front[i].rawName) == path;
          assert ms[i] == front[i];
        }
      }
    }
  }

  predicate HasPath(ms: seq<Member>, path: Name) {
    exists i :: 0 <= i < |ms| && !ms[i].directory && Relative(ms[i].rawName) == path
  }

  lemma PathsDiffer(ms: seq<Member>, i: nat, j: nat, inventory: set<Name>)
    requires i < j < |ms| && !ms[i].directory && !ms[j].directory && DistinctNames(ms) && [] !in inventory
    requires MemberFits(ms[i], inventory) && MemberFits(ms[j], inventory)
    ensures Relative(ms[i].rawName) != Relative(ms[j].rawName)
  {
    assert NameOf(ms[i].directory, ms[i].rawName) == ms[i].rawName && NameOf(ms[j].directory, ms[j].rawName) == ms[j].rawName;
    if Relative(ms[i].rawName) == Relative(ms[j].rawName) {
      ApprovedSize(ms[i], inventory);
      ApprovedSize(ms[j], inventory);
      RelativeInjective(ms[i].rawName, ms[j].rawName, inventory);
    }
  }

  lemma ApprovedSize(m: Member, inventory: set<Name>)
    requires MemberFits(m, inventory) && !m.directory
    ensures Approved(false, m.rawName, 0, inventory)
  {
  }
}
