/** Android boot images of header version 0: parsing, repacking with a new kernel, and splitting (swap-bootimg-kernel.py). */
module BootImage {
  import opened Arith
  import opened Wrappers
  import opened Bytes

  const HDR := 1632
  const ANDROID: seq<byte> := [0x41, 0x4E, 0x44, 0x52, 0x4F, 0x49, 0x44, 0x21]
  const DTB_MAGIC: seq<byte> := [0xd0, 0x0d, 0xfe, 0xed]
  const LIMIT := 0x1_0000_0000

  /** Reasons to stop: not a boot image, a field that cannot be read or stored, a zero page size, a long command line. */
  datatype Failure = NotBootImage | Struct | ZeroPage | CmdlineTooLong

  /** Assignment to a slice of a byte array: the slice, cut to what is there, gives way to `x`. */
  function Splice(s: seq<byte>, from: nat, to: nat, x: seq<byte>): seq<byte>
    requires from <= to
  {
    s[..Min(from, |s|)] + x + s[Min(to, |s|)..]
  }

  function Le32(n: nat): (s: seq<byte>)
    ensures |s| == 4
  {
    LeBytes(n, 4)
  }

  /** A little-endian word of the header. */
  function Word(s: seq<byte>, at: nat): (n: nat)
    requires at + 4 <= |s|
    ensures n < LIMIT
  {
    LeBytesOfValue(s[at..at + 4]);
    FourBytes();
    LeValue(s[at..at + 4])
  }

  lemma WordOfLe32(n: nat)
    requires n < LIMIT
    ensures Word(Le32(n), 0) == n
  {
    FourBytes();
    LeRoundTrip(n, 4);
    assert Le32(n)[0..4] == Le32(n);
  }

  /** Bytes up to the next page boundary. */
  function PaddedSize(n: nat, page: nat): (r: nat)
    requires page > 0
    ensures n <= r < n + page
  {
    if n % page == 0 then n else n + (page - n % page)
  }

  function Pad(data: seq<byte>, page: nat): (r: seq<byte>)
    requires page > 0
    ensures |r| == PaddedSize(|data|, page) && data <= r
  {
    data + Zeros(PaddedSize(|data|, page) - |data|)
  }

  /** Where the part after n bytes starts: rounded up by whole pages. */
  function NextPage(n: nat, page: nat): nat
    requires page > 0
  {
    (n + page - 1) / page * page
  }

  /** Padding and offsets round to the same boundary. */
  lemma NextPageIsPadded(n: nat, page: nat)
    requires page > 0
    ensures NextPage(n, page) == PaddedSize(n, page)
  {
    var q, r := n / page, n % page;
    assert n == q * page + r;
    if r == 0 {
      DivModUnique(n + page - 1, page, q, page - 1);
    } else {
      DivModUnique(n + page - 1, page, q + 1, r - 1);
    }
  }

  datatype Parts = Parts(
    ksz: nat, kaddr: nat, rsz: nat, raddr: nat, ssz: nat, saddr: nat, tags: nat, ps: nat, hv: nat,
    kernel: seq<byte>, ramdisk: seq<byte>, second: seq<byte>, cmdline: seq<byte>, id: seq<byte>)

  function Parse(img: seq<byte>): (r: Result<Parts, Failure>)
    ensures r.Ok? ==> 48 <= |img| && r.value.ps > 0
    ensures r.Ok? ==> |r.value.kernel| <= r.value.ksz && |r.value.ramdisk| <= r.value.rsz < LIMIT
                      && |r.value.second| <= r.value.ssz < LIMIT
  {
    if Slice(img, 0, 8) != ANDROID then Err(NotBootImage)
    else if |img| < 48 then Err(Struct)
    else if Word(img, 36) == 0 then Err(ZeroPage)
    else
      var ps, ksz, rsz, ssz := Word(img, 36), Word(img, 8), Word(img, 16), Word(img, 24);
      var k := NextPage(HDR, ps);
      var r := k + NextPage(ksz, ps);
      var s := r + NextPage(rsz, ps);
      Ok(Parts(ksz, Word(img, 12), rsz, Word(img, 20), ssz, Word(img, 28), Word(img, 32), ps, Word(img, 40),
               Slice(img, k, k + ksz), Slice(img, r, r + rsz), Slice(img, s, s + ssz),
               Slice(img, 64, 576), Slice(img, 576, 608)))
  }

  /** The four bytes at a position, lowest first, as a number. */
  function NumberAt(s: seq<byte>, at: nat): int
    requires at + 4 <= |s|
  {
    Number(s[at], s[at + 1], s[at + 2], s[at + 3])
  }

  lemma WordIsNumber(s: seq<byte>, at: nat)
    requires at + 4 <= |s|
    ensures Word(s, at) == NumberAt(s, at)
  {
    LeIsNumber(s[at..at + 4]);
  }

  /** Whole pages: the next one starts at the least multiple of the page size at or above n. */
  lemma NextPageIsLeast(n: nat, page: nat)
    requires page > 0
    ensures NextPage(n, page) % page == 0 && n <= NextPage(n, page) < n + page
  {
    NextPageIsPadded(n, page);
    MulMod((n + page - 1) / page, page);
  }

  /** Where each field of the header lies. */
  lemma HeaderLayout(img: seq<byte>)
    requires Parse(img).Ok?
    ensures 48 <= |img| && img[..8] == ANDROID
    ensures var p := Parse(img).value;
            && p.ksz == NumberAt(img, 8) && p.kaddr == NumberAt(img, 12) && p.rsz == NumberAt(img, 16)
            && p.raddr == NumberAt(img, 20) && p.ssz == NumberAt(img, 24) && p.saddr == NumberAt(img, 28)
            && p.tags == NumberAt(img, 32) && p.ps == NumberAt(img, 36) && p.hv == NumberAt(img, 40)
            && p.cmdline == Slice(img, 64, 576) && p.id == Slice(img, 576, 608)
  {
    forall at | at in {8, 12, 16, 20, 24, 28, 32, 36, 40} ensures Word(img, at) == NumberAt(img, at) {
      WordIsNumber(img, at);
    }
    assert Slice(img, 0, 8) == img[..8];
    hide Word, NextPage;
  }

  /** The first whole page at or after n bytes. */
  predicate PageAfter(n: nat, at: nat, page: nat)
    requires page > 0
  {
    at % page == 0 && n <= at < n + page
  }

  lemma PageAfterIs(at: nat, n: nat, page: nat)
    requires page > 0 && at % page == 0
    ensures PageAfter(at + n, at + NextPage(n, page), page)
  {
    NextPageIsLeast(n, page);
    hide NextPage;
    SumIsWhole(at, NextPage(n, page), page);
  }

  /** Where the parts lie: kernel, ramdisk and second stage in that order, each from the first whole page after the last. */
  lemma PartsLayout(img: seq<byte>) returns (k: nat, r: nat, s: nat)
    requires Parse(img).Ok?
    ensures var p := Parse(img).value;
            && PageAfter(HDR, k, p.ps) && PageAfter(k + p.ksz, r, p.ps) && PageAfter(r + p.rsz, s, p.ps)
            && p.kernel == Slice(img, k, k + p.ksz) && p.ramdisk == Slice(img, r, r + p.rsz)
            && p.second == Slice(img, s, s + p.ssz)
  {
    assert HDR >= 0;
    hide *;
    var p := Parse(img).value;
    k := NextPage(HDR, p.ps);
    r := k + NextPage(p.ksz, p.ps);
    s := r + NextPage(p.rsz, p.ps);
    PartsAt(img);
    PageAfterIs(0, HDR, p.ps);
    OnPage(HDR, k, p.ps);
    PageAfterIs(k, p.ksz, p.ps);
    OnPage(k + p.ksz, r, p.ps);
    PageAfterIs(r, p.rsz, p.ps);
  }

  lemma PartsAt(img: seq<byte>)
    requires Parse(img).Ok?
    ensures var p := Parse(img).value;
            var k := NextPage(HDR, p.ps);
            var r := k + NextPage(p.ksz, p.ps);
            var s := r + NextPage(p.rsz, p.ps);
            && p.kernel == Slice(img, k, k + p.ksz) && p.ramdisk == Slice(img, r, r + p.rsz)
            && p.second == Slice(img, s, s + p.ssz)
  {
    hide Word, NextPage, Slice;
  }

  lemma OnPage(n: nat, at: nat, page: nat)
    requires page > 0 && PageAfter(n, at, page)
    ensures at % page == 0
  {
  }

  lemma SumIsWhole(a: nat, b: nat, page: nat)
    requires page > 0 && a % page == 0 && b % page == 0
    ensures (a + b) % page == 0
  {
    assert a + b == (a / page + b / page) * page;
    MulMod(a / page + b / page, page);
  }

  // ---------------------------------------------------------------------- the id

  function Hashed(part: seq<byte>): seq<byte> {
    part + Le32(|part|)
  }

  /** The bytes the id is a hash of. */
  function Message(kernel: seq<byte>, ramdisk: seq<byte>, second: seq<byte>): seq<byte> {
    Hashed(kernel) + Hashed(ramdisk) + Hashed(second)
  }

  /**
   * The hashed message by positions: kernel, ramdisk and second stage in that order, each followed by its length in four
   * bytes, lowest first.
   */
  lemma MessageLayout(kernel: seq<byte>, ramdisk: seq<byte>, second: seq<byte>)
    requires |kernel| < LIMIT && |ramdisk| < LIMIT && |second| < LIMIT
    ensures var m, r, s := Message(kernel, ramdisk, second), |kernel| + 4, |kernel| + |ramdisk| + 8;
            && |m| == |kernel| + |ramdisk| + |second| + 12
            && m[..|kernel|] == kernel && NumberAt(m, |kernel|) == |kernel|
            && m[r..r + |ramdisk|] == ramdisk && NumberAt(m, r + |ramdisk|) == |ramdisk|
            && m[s..s + |second|] == second && NumberAt(m, s + |second|) == |second|
  {
    var a, b, c := Hashed(kernel), Hashed(ramdisk), Hashed(second);
    var m := Message(kernel, ramdisk, second);
    assert m == a + b + c;
    hide *;
    ThreeWays(a, b, c);
    HashedLayout(m, [], kernel, b + c);
    HashedLayout(m, a, ramdisk, c);
    HashedLayout(m, a + b, second, []);
  }

  lemma ThreeWays(a: seq<byte>, b: seq<byte>, c: seq<byte>)
    ensures a + b + c == [] + a + (b + c) && a + b + c == a + b + c + []
  {
  }

  lemma HashedLayout(m: seq<byte>, before: seq<byte>, part: seq<byte>, after: seq<byte>)
    requires |part| < LIMIT && m == before + Hashed(part) + after
    ensures |Hashed(part)| == |part| + 4 && |m| == |before| + |part| + 4 + |after|
    ensures var at := |before|;
            && m[at..at + |part|] == part && NumberAt(m, at + |part|) == |part|
  {
    var n := Le32(|part|);
    WordOfLe32(|part|);
    WordIsNumber(n, 0);
    hide Le32, Word;
    var at := |before| + |part|;
    assert m[at] == n[0] && m[at + 1] == n[1] && m[at + 2] == n[2] && m[at + 3] == n[3];
  }

  /** The hash is updated part by part; a part of 4 GiB or more has no length word. */
  method BootimgId(kernel: seq<byte>, ramdisk: seq<byte>, second: seq<byte>, sha1: seq<byte> -> seq<byte>)
    returns (r: Result<seq<byte>, Failure>)
    ensures r.Ok? <==> |kernel| < LIMIT && |ramdisk| < LIMIT && |second| < LIMIT
    ensures r.Ok? ==> r.value == sha1(Message(kernel, ramdisk, second))
  {
    var parts := [kernel, ramdisk, second];
    var h: seq<byte> := [];
    for i := 0 to 3
      invariant forall k :: 0 <= k < i ==> |parts[k]| < LIMIT
      invariant h == match i
                     case 0 => []
                     case 1 => Hashed(kernel)
                     case 2 => Hashed(kernel) + Hashed(ramdisk)
                     case _ => Message(kernel, ramdisk, second)
    {
      h := h + parts[i];
      if |parts[i]| >= LIMIT { return Err(Struct); }
      h := h + Le32(|parts[i]|);
    }
    assert parts[0] == kernel && parts[1] == ramdisk && parts[2] == second;
    return Ok(sha1(h));
  }

  lemma HashedTail(a: seq<byte>, b: seq<byte>, x: seq<byte>, y: seq<byte>)
    requires |x| < LIMIT && |y| < LIMIT && a + Hashed(x) == b + Hashed(y)
    ensures a == b && x == y
  {
    assert Hashed(x) == x + Le32(|x|) && Hashed(y) == y + Le32(|y|);
    WordOfLe32(|x|);
    WordOfLe32(|y|);
    hide *;
    TailSplits(a, x, Le32(|x|), b, y, Le32(|y|));
  }

  /** Equal words at the end give equal lengths, and then equal pieces. */
  lemma TailSplits(a: seq<byte>, x: seq<byte>, v: seq<byte>, b: seq<byte>, y: seq<byte>, w: seq<byte>)
    requires |v| == |w| == 4 && a + (x + v) == b + (y + w) && (v == w ==> |x| == |y|)
    ensures a == b && x == y
  {
    var s, t := a + (x + v), b + (y + w);
    assert s[|s| - 4..] == v && t[|t| - 4..] == w;
    assert a == s[..|a|] && b == t[..|b|];
    assert x == s[|a|..|a| + |x|] && y == t[|b|..|b| + |y|];
  }

  /** The hashed message determines all three parts. */
  lemma MessageInjective(k: seq<byte>, r: seq<byte>, s: seq<byte>, k2: seq<byte>, r2: seq<byte>, s2: seq<byte>)
    requires |k| < LIMIT && |r| < LIMIT && |s| < LIMIT && |k2| < LIMIT && |r2| < LIMIT && |s2| < LIMIT
    requires Message(k, r, s) == Message(k2, r2, s2)
    ensures k == k2 && r == r2 && s == s2
  {
    hide Hashed;
    HashedTail(Hashed(k) + Hashed(r), Hashed(k2) + Hashed(r2), s, s2);
    HashedTail(Hashed(k), Hashed(k2), r, r2);
    assert [] + Hashed(k) == Hashed(k) && [] + Hashed(k2) == Hashed(k2);
    HashedTail([], [], k, k2);
  }

  // ------------------------------------------------------------------- repacking

  /** The 512 bytes of a command line. */
  function CmdlineField(cmdline: seq<byte>): (f: seq<byte>)
    requires |cmdline| <= 511
    ensures |f| == 512 && f[..|cmdline|] == cmdline && forall i :: |cmdline| <= i < 512 ==> f[i] == 0
  {
    cmdline + Zeros(512 - |cmdline|)
  }

  /** The header after its three edits. */
  function Edited(h: seq<byte>, ksz: nat, cmdline: Option<seq<byte>>, digest: seq<byte>): seq<byte>
    requires cmdline.Some? ==> |cmdline.value| <= 511
  {
    var h1 := Splice(h, 8, 12, Le32(ksz));
    var h2 := if cmdline.Some? then Splice(h1, 64, 576, CmdlineField(cmdline.value)) else h1;
    Splice(h2, 576, 608, digest + Zeros(12))
  }

  /** The parts one after the other, each padded to whole pages. */
  function Assemble(h: seq<byte>, kernel: seq<byte>, ramdisk: seq<byte>, second: seq<byte>, hasSecond: bool, ps: nat): seq<byte>
    requires ps > 0
  {
    Pad(h, ps) + Pad(kernel, ps) + Pad(ramdisk, ps) + if hasSecond then Pad(second, ps) else []
  }

  predicate Repackable(img: seq<byte>, gz: seq<byte>, dtb: seq<byte>, cmdline: Option<seq<byte>>) {
    Parse(img).Ok? && |gz + dtb| < LIMIT && (cmdline.Some? ==> |cmdline.value| <= 511)
  }

  function Repacked(img: seq<byte>, gz: seq<byte>, dtb: seq<byte>, cmdline: Option<seq<byte>>,
                    sha1: seq<byte> -> seq<byte>): seq<byte>
    requires Repackable(img, gz, dtb, cmdline)
  {
    var p, kern := Parse(img).value, gz + dtb;
    var h := Edited(Slice(img, 0, HDR), |kern|, cmdline, sha1(Message(kern, p.ramdisk, p.second)));
    Assemble(h, kern, p.ramdisk, p.second, p.ssz != 0, p.ps)
  }

  /** The repacker: the header is edited in place, the id is computed anew, and the parts are laid out again. */
  method Repack(img: seq<byte>, gz: seq<byte>, dtb: seq<byte>, cmdline: Option<seq<byte>>,
                sha1: seq<byte> -> seq<byte>) returns (r: Result<seq<byte>, Failure>)
    ensures r.Ok? <==> Repackable(img, gz, dtb, cmdline)
    ensures r.Ok? ==> r.value == Repacked(img, gz, dtb, cmdline, sha1)
  {
    var parsed := Parse(img);
    if parsed.Err? { return Err(parsed.error); }
    var p := parsed.value;
    hide Parse, Message, Word, Splice, Pad, Le32, Slice, Zeros;
    var kern := gz + dtb;
    var h := Slice(img, 0, HDR);
    if |kern| >= LIMIT { return Err(Struct); }
    h := Splice(h, 8, 12, Le32(|kern|));
    if cmdline.Some? {
      var cb := cmdline.value;
      if |cb| > 511 { return Err(CmdlineTooLong); }
      h := Splice(h, 64, 576, CmdlineField(cb));
    }
    var id := BootimgId(kern, p.ramdisk, p.second, sha1);
    h := Splice(h, 576, 608, id.value + Zeros(12));
    assert h == Edited(Slice(img, 0, HDR), |kern|, cmdline, sha1(Message(kern, p.ramdisk, p.second)));
    hide Edited;
    var blob := Pad(h, p.ps) + Pad(kern, p.ps) + Pad(p.ramdisk, p.ps);
    assert blob + [] == blob;
    if p.ssz != 0 { blob := blob + Pad(p.second, p.ps); }
    return Ok(blob);
  }

  // ------------------------------------------------------------------ round trips

  /** A whole header, and a ramdisk and second stage as long as it says. */
  predicate WellFormed(img: seq<byte>) {
    && Parse(img).Ok? && HDR <= |img|
    && |Parse(img).value.ramdisk| == Parse(img).value.rsz && |Parse(img).value.second| == Parse(img).value.ssz
  }

  /** A header that describes its parts. */
  predicate Describes(h: seq<byte>, kernel: seq<byte>, ramdisk: seq<byte>, second: seq<byte>) {
    && |h| == HDR && h[..8] == ANDROID && 0 < Word(h, 36)
    && Word(h, 8) == |kernel| && Word(h, 16) == |ramdisk| && Word(h, 24) == |second|
  }

  /** What such a header says, with its parts. */
  function PartsOf(h: seq<byte>, kernel: seq<byte>, ramdisk: seq<byte>, second: seq<byte>): Parts
    requires |h| == HDR
  {
    Parts(Word(h, 8), Word(h, 12), Word(h, 16), Word(h, 20), Word(h, 24), Word(h, 28), Word(h, 32), Word(h, 36), Word(h, 40),
          kernel, ramdisk, second, h[64..576], h[576..608])
  }

  /** Parsing undoes assembling. */
  lemma ParseAssembled(h: seq<byte>, kernel: seq<byte>, ramdisk: seq<byte>, second: seq<byte>)
    requires Describes(h, kernel, ramdisk, second)
    ensures Parse(Assemble(h, kernel, ramdisk, second, |second| != 0, Word(h, 36)))
         == Ok(PartsOf(h, kernel, ramdisk, second))
  {
    var ps := Word(h, 36);
    var blob := Assemble(h, kernel, ramdisk, second, |second| != 0, ps);
    AssembledParts(h, kernel, ramdisk, second, ps);
    AssembleStarts(h, kernel, ramdisk, second, |second| != 0, ps);
    hide Assemble, Placed, Word, Parse;
    ParseOf(blob, h, kernel, ramdisk, second);
  }

  /** Each part lies at the page boundary after the one before it. */
  predicate Placed(blob: seq<byte>, kernel: seq<byte>, ramdisk: seq<byte>, second: seq<byte>, ps: nat)
    requires ps > 0
  {
    var k := NextPage(HDR, ps);
    var r := k + NextPage(|kernel|, ps);
    var s := r + NextPage(|ramdisk|, ps);
    && Slice(blob, k, k + |kernel|) == kernel && Slice(blob, r, r + |ramdisk|) == ramdisk
    && Slice(blob, s, s + |second|) == second
  }

  lemma AssembledParts(h: seq<byte>, kernel: seq<byte>, ramdisk: seq<byte>, second: seq<byte>, ps: nat)
    requires ps > 0 && |h| == HDR
    ensures Placed(Assemble(h, kernel, ramdisk, second, |second| != 0, ps), kernel, ramdisk, second, ps)
  {
    var a, k, r := Pad(h, ps), Pad(kernel, ps), Pad(ramdisk, ps);
    var s := if |second| != 0 then Pad(second, ps) else [];
    assert a + k + r + s == Assemble(h, kernel, ramdisk, second, |second| != 0, ps);
    hide *;
    NextPageIsPadded(HDR, ps);
    NextPageIsPadded(|kernel|, ps);
    NextPageIsPadded(|ramdisk|, ps);
    FourPieces(a, k, r, s, kernel, ramdisk, second);
    PlacedAt(a + k + r + s, |a|, |k|, |r|, kernel, ramdisk, second, ps);
  }

  lemma PlacedAt(blob: seq<byte>, a: nat, k: nat, r: nat, kernel: seq<byte>, ramdisk: seq<byte>, second: seq<byte>, ps: nat)
    requires ps > 0 && a == NextPage(HDR, ps) && k == NextPage(|kernel|, ps) && r == NextPage(|ramdisk|, ps)
    requires Slice(blob, a, a + |kernel|) == kernel && Slice(blob, a + k, a + k + |ramdisk|) == ramdisk
    requires Slice(blob, a + k + r, a + k + r + |second|) == second
    ensures Placed(blob, kernel, ramdisk, second, ps)
  {
    hide NextPage, Slice;
  }

  lemma FourPieces(a: seq<byte>, k: seq<byte>, r: seq<byte>, s: seq<byte>,
                   kernel: seq<byte>, ramdisk: seq<byte>, second: seq<byte>)
    requires kernel <= k && ramdisk <= r && second <= s
    ensures var blob := a + k + r + s;
            && Slice(blob, |a|, |a| + |kernel|) == kernel
            && Slice(blob, |a| + |k|, |a| + |k| + |ramdisk|) == ramdisk
            && Slice(blob, |a| + |k| + |r|, |a| + |k| + |r| + |second|) == second
  {
    var blob := a + k + r + s;
    assert a + k + (r + s) == blob && blob + [] == blob;
    PartAt(a, k, r + s, kernel);
    PartAt(a + k, r, s, ramdisk);
    PartAt(a + k + r, s, [], second);
    hide Slice;
  }

  lemma ParseOf(blob: seq<byte>, h: seq<byte>, kernel: seq<byte>, ramdisk: seq<byte>, second: seq<byte>)
    requires Describes(h, kernel, ramdisk, second) && HDR <= |blob| && blob[..HDR] == h
    requires Placed(blob, kernel, ramdisk, second, Word(h, 36))
    ensures Parse(blob) == Ok(PartsOf(h, kernel, ramdisk, second))
  {
    HeaderWords(blob, h);
    hide Word, NextPage, Slice;
  }

  lemma PartAt(before: seq<byte>, part: seq<byte>, after: seq<byte>, content: seq<byte>)
    requires content <= part
    ensures Slice(before + part + after, |before|, |before| + |content|) == content
  {
    var s := before + part + after;
    assert s[|before|..|before| + |content|] == part[..|content|];
  }

  /** Every header field of an image is that of its first 1632 bytes. */
  lemma HeaderWords(img: seq<byte>, h: seq<byte>)
    requires HDR <= |img| && img[..HDR] == h
    ensures forall at :: 0 <= at <= HDR - 4 ==> Word(img, at) == Word(h, at)
    ensures Slice(img, 0, 8) == h[..8] && Slice(img, 64, 576) == h[64..576] && Slice(img, 576, 608) == h[576..608]
  {
    forall at | 0 <= at <= HDR - 4 ensures Word(img, at) == Word(h, at) {
      assert img[at..at + 4] == h[at..at + 4];
    }
  }

  /** What the three edits leave and change. */
  lemma EditedHeader(h: seq<byte>, ksz: nat, cmdline: Option<seq<byte>>, digest: seq<byte>)
    requires |h| == HDR && ksz < LIMIT && |digest| == 20 && (cmdline.Some? ==> |cmdline.value| <= 511)
    ensures var e := Edited(h, ksz, cmdline, digest);
            && |e| == HDR && e[0..8] == h[0..8] && e[8..12] == Le32(ksz) && e[12..64] == h[12..64]
            && e[64..576] == (if cmdline.Some? then CmdlineField(cmdline.value) else h[64..576])
            && e[576..608] == digest + Zeros(12) && e[608..HDR] == h[608..HDR]
  {
    hide Le32, CmdlineField, Splice;
    var h1 := Splice(h, 8, 12, Le32(ksz));
    SpliceParts(h, 8, 12, Le32(ksz));
    var h2 := if cmdline.Some? then Splice(h1, 64, 576, CmdlineField(cmdline.value)) else h1;
    if cmdline.Some? { SpliceParts(h1, 64, 576, CmdlineField(cmdline.value)); }
    SpliceParts(h2, 576, 608, digest + Zeros(12));
  }

  /** A splice of equal length changes nothing around it. */
  lemma SpliceParts(s: seq<byte>, from: nat, to: nat, x: seq<byte>)
    requires from <= to <= |s| && |x| == to - from
    ensures var r := Splice(s, from, to, x);
            && |r| == |s| && r[from..to] == x
            && (forall a, b :: 0 <= a <= b <= from ==> r[a..b] == s[a..b])
            && (forall a, b :: to <= a <= b <= |s| ==> r[a..b] == s[a..b])
            && r[..from] == s[..from] && r[to..] == s[to..]
  {
  }

  lemma SameWords(a: seq<byte>, b: seq<byte>)
    requires |a| == |b| == HDR && a[12..64] == b[12..64]
    ensures forall at :: 12 <= at <= 60 ==> Word(a, at) == Word(b, at)
  {
    assert forall k :: 12 <= k < 64 ==> a[k] == a[12..64][k - 12] == b[k];
    forall at | 12 <= at <= 60 ensures Word(a, at) == Word(b, at) {
      assert a[at..at + 4] == b[at..at + 4];
    }
  }

  lemma SizeWord(e: seq<byte>, n: nat)
    requires |e| == HDR && n < LIMIT && e[8..12] == Le32(n)
    ensures Word(e, 8) == n
  {
    WordOfLe32(n);
    hide Le32;
    assert Le32(n)[0..4] == Le32(n);
  }

  /** A 20-byte digest, as SHA1 gives. */
  ghost predicate Sha1Sized(sha1: seq<byte> -> seq<byte>) {
    forall m :: |sha1(m)| == 20
  }

  /** The header a repacked image starts with, and its parts. */
  lemma RepackedHeader(img: seq<byte>, gz: seq<byte>, dtb: seq<byte>, cmdline: Option<seq<byte>>, sha1: seq<byte> -> seq<byte>)
    requires WellFormed(img) && Repackable(img, gz, dtb, cmdline) && Sha1Sized(sha1)
    ensures var p, kern, old_ := Parse(img).value, gz + dtb, img[..HDR];
            var e := Edited(old_, |kern|, cmdline, sha1(Message(kern, p.ramdisk, p.second)));
            && Describes(e, kern, p.ramdisk, p.second) && Word(e, 36) == p.ps
            && Repacked(img, gz, dtb, cmdline, sha1) == Assemble(e, kern, p.ramdisk, p.second, |p.second| != 0, p.ps)
            && PartsOf(e, kern, p.ramdisk, p.second)
            == p.(ksz := |kern|, kernel := kern, id := sha1(Message(kern, p.ramdisk, p.second)) + Zeros(12),
                  cmdline := if cmdline.Some? then CmdlineField(cmdline.value) else p.cmdline)
  {
    var p, kern, h := Parse(img).value, gz + dtb, img[..HDR];
    var digest := sha1(Message(kern, p.ramdisk, p.second));
    var e := Edited(h, |kern|, cmdline, digest);
    HeaderWords(img, h);
    EditedHeader(h, |kern|, cmdline, digest);
    hide Edited, Le32, Message, Assemble, CmdlineField;
    SameWords(h, e);
    SizeWord(e, |kern|);
    hide Word;
    assert Slice(img, 0, HDR) == h;
  }

  /**
   * Round trip: whatever kernel and device tree a well-formed image is repacked with, parsing the result gives
   * exactly them, one after the other, with the ramdisk, second stage, addresses, tags, page size and version of
   * the original, the command line of the original unless a new one was given, and a matching id.
   */
  lemma ParseRepacked(img: seq<byte>, gz: seq<byte>, dtb: seq<byte>, cmdline: Option<seq<byte>>, sha1: seq<byte> -> seq<byte>)
    requires WellFormed(img) && Repackable(img, gz, dtb, cmdline) && Sha1Sized(sha1)
    ensures var p, kern := Parse(img).value, gz + dtb;
            Parse(Repacked(img, gz, dtb, cmdline, sha1))
            == Ok(p.(ksz := |kern|, kernel := kern, id := sha1(Message(kern, p.ramdisk, p.second)) + Zeros(12),
                     cmdline := if cmdline.Some? then CmdlineField(cmdline.value) else p.cmdline))
  {
    var p, kern := Parse(img).value, gz + dtb;
    RepackedHeader(img, gz, dtb, cmdline, sha1);
    var e := Edited(img[..HDR], |kern|, cmdline, sha1(Message(kern, p.ramdisk, p.second)));
    hide Parse, Edited, Assemble, Describes, PartsOf, Message, WellFormed, Repacked;
    ParseAssembled(e, kern, p.ramdisk, p.second);
  }

  lemma RepackedIsWellFormed(img: seq<byte>, gz: seq<byte>, dtb: seq<byte>, cmdline: Option<seq<byte>>,
                             sha1: seq<byte> -> seq<byte>)
    requires WellFormed(img) && Repackable(img, gz, dtb, cmdline) && Sha1Sized(sha1)
    ensures var blob := Repacked(img, gz, dtb, cmdline, sha1);
            && WellFormed(blob) && Repackable(blob, gz, dtb, cmdline)
            && blob[..HDR] == Edited(img[..HDR], |gz + dtb|, cmdline,
                                     sha1(Message(gz + dtb, Parse(img).value.ramdisk, Parse(img).value.second)))
  {
    var p, kern := Parse(img).value, gz + dtb;
    ParseRepacked(img, gz, dtb, cmdline, sha1);
    RepackedHeader(img, gz, dtb, cmdline, sha1);
    var e := Edited(img[..HDR], |kern|, cmdline, sha1(Message(kern, p.ramdisk, p.second)));
    EditedHeader(img[..HDR], |kern|, cmdline, sha1(Message(kern, p.ramdisk, p.second)));
    AssembleStarts(e, kern, p.ramdisk, p.second, |p.second| != 0, p.ps);
    hide Parse, Edited, Message, Repacked, Assemble, Word;
  }

  lemma AssembleStarts(h: seq<byte>, kernel: seq<byte>, ramdisk: seq<byte>, second: seq<byte>, hasSecond: bool, ps: nat)
    requires ps > 0 && |h| == HDR
    ensures var blob := Assemble(h, kernel, ramdisk, second, hasSecond, ps); HDR <= |blob| && blob[..HDR] == h
  {
    assert Pad(h, ps)[..HDR] == h;
    hide Pad;
  }

  /** The three edits, made twice, are made once. */
  lemma EditedTwice(h: seq<byte>, ksz: nat, cmdline: Option<seq<byte>>, digest: seq<byte>)
    requires |h| == HDR && ksz < LIMIT && |digest| == 20 && (cmdline.Some? ==> |cmdline.value| <= 511)
    ensures var e := Edited(h, ksz, cmdline, digest); Edited(e, ksz, cmdline, digest) == e
  {
    var e := Edited(h, ksz, cmdline, digest);
    var f := Edited(e, ksz, cmdline, digest);
    EditedHeader(h, ksz, cmdline, digest);
    EditedHeader(e, ksz, cmdline, digest);
    hide Edited, Le32, CmdlineField;
    Cuts(e);
    Cuts(f);
  }

  /** A header is its fields. */
  lemma Cuts(e: seq<byte>)
    requires |e| == HDR
    ensures e == e[0..8] + e[8..12] + e[12..64] + e[64..576] + e[576..608] + e[608..HDR]
  {
  }

  /** Repacking the result with the same parts changes nothing more. */
  lemma RepackIdempotent(img: seq<byte>, gz: seq<byte>, dtb: seq<byte>, cmdline: Option<seq<byte>>,
                         sha1: seq<byte> -> seq<byte>)
    requires WellFormed(img) && Repackable(img, gz, dtb, cmdline) && Sha1Sized(sha1)
    ensures var blob := Repacked(img, gz, dtb, cmdline, sha1);
            Repackable(blob, gz, dtb, cmdline) && Repacked(blob, gz, dtb, cmdline, sha1) == blob
  {
    var p, kern, blob := Parse(img).value, gz + dtb, Repacked(img, gz, dtb, cmdline, sha1);
    RepackedIsWellFormed(img, gz, dtb, cmdline, sha1);
    ParseRepacked(img, gz, dtb, cmdline, sha1);
    RepackedHeader(img, gz, dtb, cmdline, sha1);
    RepackedHeader(blob, gz, dtb, cmdline, sha1);
    EditedTwice(img[..HDR], |kern|, cmdline, sha1(Message(kern, p.ramdisk, p.second)));
    hide Parse, Edited, Message, Repacked, Assemble, Describes, PartsOf;
  }

  /** Every part is where the header says, padded with zeros and nothing after it, and the id matches. */
  predicate Canonical(img: seq<byte>, sha1: seq<byte> -> seq<byte>)
    requires WellFormed(img)
  {
    var p := Parse(img).value;
    && |p.kernel| == p.ksz && p.id == sha1(Message(p.kernel, p.ramdisk, p.second)) + Zeros(12)
    && img == Assemble(img[..HDR], p.kernel, p.ramdisk, p.second, |p.second| != 0, p.ps)
  }

  /** No command line, or the one the image has: its field without the zeros that fill it up. */
  predicate OwnCmdline(img: seq<byte>, cmdline: Option<seq<byte>>)
    requires WellFormed(img)
  {
    cmdline.Some? ==> |cmdline.value| <= 511 && CmdlineField(cmdline.value) == Parse(img).value.cmdline
  }

  /** A field without its trailing zeros. */
  function Stripped(f: seq<byte>): seq<byte> {
    if |f| > 0 && f[|f| - 1] == 0 then Stripped(f[..|f| - 1]) else f
  }

  lemma {:induction false} StrippedPads(f: seq<byte>)
    ensures |Stripped(f)| <= |f| && Stripped(f) + Zeros(|f| - |Stripped(f)|) == f
    ensures |f| > 0 && f[|f| - 1] == 0 ==> |Stripped(f)| < |f|
  {
    if |f| > 0 && f[|f| - 1] == 0 {
      var g := f[..|f| - 1];
      StrippedPads(g);
      assert f == g + [0];
    }
  }

  /** The command line of an image can be passed to the repacker exactly when its field ends in a zero. */
  lemma CmdlineCanBePassed(img: seq<byte>)
    requires WellFormed(img)
    ensures |Parse(img).value.cmdline| == 512
    ensures var f := Parse(img).value.cmdline;
            && (f[511] == 0 ==> OwnCmdline(img, Some(Stripped(f))))
            && (f[511] != 0 ==> forall c :: !OwnCmdline(img, Some(c)))
  {
    var f := Parse(img).value.cmdline;
    StrippedPads(f);
    hide Parse, Stripped;
    if f[511] == 0 {
      assert CmdlineField(Stripped(f)) == f;
    } else {
      forall c | |c| <= 511 ensures CmdlineField(c) != f {
        assert CmdlineField(c)[511] == 0;
      }
    }
  }

  /**
   * Repacking an image's own parts with its own command line, given or left out, gives the image back byte for
   * byte exactly when the image is canonical.
   */
  lemma OwnParts(img: seq<byte>, gz: seq<byte>, dtb: seq<byte>, cmdline: Option<seq<byte>>, sha1: seq<byte> -> seq<byte>)
    requires WellFormed(img) && gz + dtb == Parse(img).value.kernel && OwnCmdline(img, cmdline) && Sha1Sized(sha1)
    ensures Repackable(img, gz, dtb, cmdline)
    ensures Repacked(img, gz, dtb, cmdline, sha1) == img <==> Canonical(img, sha1)
  {
    var p, h := Parse(img).value, img[..HDR];
    var digest := sha1(Message(p.kernel, p.ramdisk, p.second));
    RepackedHeader(img, gz, dtb, cmdline, sha1);
    RepackedIsWellFormed(img, gz, dtb, cmdline, sha1);
    ParseRepacked(img, gz, dtb, cmdline, sha1);
    var e := Edited(h, |p.kernel|, cmdline, digest);
    if Canonical(img, sha1) {
      OwnHeader(img, cmdline, digest);
    }
    hide Parse, Edited, Message, Repacked, Assemble, Describes, PartsOf, CmdlineField;
  }

  /** The header of an image that already says what the edits write. */
  lemma OwnHeader(img: seq<byte>, cmdline: Option<seq<byte>>, digest: seq<byte>)
    requires WellFormed(img) && |digest| == 20 && OwnCmdline(img, cmdline)
    requires var p := Parse(img).value; |p.kernel| == p.ksz && p.id == digest + Zeros(12)
    ensures Edited(img[..HDR], |Parse(img).value.kernel|, cmdline, digest) == img[..HDR]
  {
    var p, h := Parse(img).value, img[..HDR];
    var e := Edited(h, p.ksz, cmdline, digest);
    HeaderWords(img, h);
    EditedHeader(h, p.ksz, cmdline, digest);
    WordIsLe32(h, 8);
    hide Edited, Le32, Word, CmdlineField;
    Cuts(e);
    Cuts(h);
  }

  lemma WordIsLe32(h: seq<byte>, at: nat)
    requires at + 4 <= |h|
    ensures h[at..at + 4] == Le32(Word(h, at))
  {
    LeBytesOfValue(h[at..at + 4]);
  }

  // -------------------------------------------------------------------- splitting

  /** The magic number stands at position i. */
  predicate MagicAt(s: seq<byte>, i: nat) {
    i + 4 <= |s| && s[i..i + 4] == DTB_MAGIC
  }

  /** First position of the magic number, or -1. */
  method FindMagic(s: seq<byte>) returns (r: int)
    ensures r == -1 ==> forall i :: 0 <= i < |s| ==> !MagicAt(s, i)
    ensures r != -1 ==> 0 <= r && MagicAt(s, r) && forall i :: 0 <= i < r ==> !MagicAt(s, i)
  {
    for i := 0 to |s|
      invariant forall k :: 0 <= k < i ==> !MagicAt(s, k)
    {
      if i + 4 <= |s| && s[i..i + 4] == DTB_MAGIC { return i; }
    }
    return -1;
  }

  /** A kernel with its device tree cut off at the first magic number. */
  ghost predicate SplitsInto(kernel: seq<byte>, gz: seq<byte>, dtb: seq<byte>) {
    kernel == gz + dtb && MagicAt(kernel, |gz|) && forall i :: 0 <= i < |gz| ==> !MagicAt(kernel, i)
  }

  /** do_split(): an image without a magic number in its kernel has nothing to split. */
  method Split(img: seq<byte>) returns (r: Result<Option<(seq<byte>, seq<byte>)>, Failure>)
    ensures r.Ok? <==> Parse(img).Ok?
    ensures r.Ok? && r.value.Some? ==> SplitsInto(Parse(img).value.kernel, r.value.value.0, r.value.value.1)
    ensures r.Ok? && r.value.None? ==>
              forall i :: 0 <= i < |Parse(img).value.kernel| ==> !MagicAt(Parse(img).value.kernel, i)
  {
    var parsed := Parse(img);
    if parsed.Err? { return Err(parsed.error); }
    hide Parse;
    var kernel := parsed.value.kernel;
    var i := FindMagic(kernel);
    if i < 0 { return Ok(None); }
    assert kernel == kernel[..i] + kernel[i..];
    return Ok(Some((kernel[..i], kernel[i..])));
  }

  predicate HasMagic(s: seq<byte>) {
    exists i :: 0 <= i < |s| && MagicAt(s, i)
  }

  /** The magic number has no border: it cannot start inside the first part and run into the second. */
  lemma NoStraddle(gz: seq<byte>, dtb: seq<byte>, i: nat)
    requires MagicAt(dtb, 0) && i < |gz| && MagicAt(gz + dtb, i)
    ensures MagicAt(gz, i)
  {
    var s := gz + dtb;
    assert s[i..i + 4][0] == s[i] && s[i..i + 4][1] == s[i + 1] && s[i..i + 4][2] == s[i + 2] && s[i..i + 4][3] == s[i + 3];
    assert dtb[0..4][0] == dtb[0] == s[|gz|];
    assert |gz| - i > 3;
    assert gz[i..i + 4] == s[i..i + 4];
  }

  /** Splitting undoes appending exactly when the kernel holds no magic number and the device tree starts with it. */
  lemma SplitUndoesAppend(gz: seq<byte>, dtb: seq<byte>)
    ensures SplitsInto(gz + dtb, gz, dtb) <==> MagicAt(dtb, 0) && !HasMagic(gz)
  {
    var s := gz + dtb;
    assert |dtb| >= 4 ==> s[|gz|..|gz| + 4] == dtb[0..4];
    forall i | 0 <= i < |gz| && MagicAt(gz, i) ensures MagicAt(s, i) {
      assert s[i..i + 4] == gz[i..i + 4];
    }
    if MagicAt(dtb, 0) && !HasMagic(gz) {
      forall i | 0 <= i < |gz| ensures !MagicAt(s, i) {
        if MagicAt(s, i) { NoStraddle(gz, dtb, i); }
      }
    }
  }

  /** What splitting finds is unique. */
  lemma SplitUnique(kernel: seq<byte>, gz: seq<byte>, dtb: seq<byte>, gz2: seq<byte>, dtb2: seq<byte>)
    requires SplitsInto(kernel, gz, dtb) && SplitsInto(kernel, gz2, dtb2)
    ensures gz == gz2 && dtb == dtb2
  {
    assert |gz| == |gz2|;
    assert gz == kernel[..|gz|] && gz2 == kernel[..|gz|] && dtb == kernel[|gz|..] && dtb2 == kernel[|gz|..];
  }

  /** Repack, then split: the two files come back exactly under the same condition. */
  method RepackThenSplit(img: seq<byte>, gz: seq<byte>, dtb: seq<byte>, cmdline: Option<seq<byte>>,
                         sha1: seq<byte> -> seq<byte>) returns (r: Result<Option<(seq<byte>, seq<byte>)>, Failure>)
    requires WellFormed(img) && Sha1Sized(sha1)
    ensures r.Ok? <==> Repackable(img, gz, dtb, cmdline)
    ensures r.Ok? ==> (r.value == Some((gz, dtb)) <==> MagicAt(dtb, 0) && !HasMagic(gz))
  {
    var blob := Repack(img, gz, dtb, cmdline, sha1);
    if blob.Err? { return Err(blob.error); }
    ParseRepacked(img, gz, dtb, cmdline, sha1);
    SplitUndoesAppend(gz, dtb);
    hide Parse, Repacked, MagicAt, HasMagic, WellFormed;
    r := Split(blob.value);
    if r.value.Some? {
      if SplitsInto(gz + dtb, gz, dtb) { SplitUnique(gz + dtb, gz, dtb, r.value.value.0, r.value.value.1); }
    } else {
      NoMagicNoSplit(gz, dtb);
    }
  }

  lemma NoMagicNoSplit(gz: seq<byte>, dtb: seq<byte>)
    requires forall i :: 0 <= i < |gz + dtb| ==> !MagicAt(gz + dtb, i)
    ensures !SplitsInto(gz + dtb, gz, dtb)
  {
  }
}
