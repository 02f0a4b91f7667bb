/** The checking allocator of gwlib/gwmem-check.c.

    Memory is a map from the pointer a client holds to the raw bytes of its block: a start marker of
    16 bytes, the area, an end marker of 16 bytes, and slack. The system's malloc is an argument: it
    returns some pointer that is not in use. */
module CheckedMemory {
  import opened Common

  const MARKER_SIZE: nat := 16
  const LONG: nat := 8
  const FREE_RING_SIZE: nat := 1024
  const NEW_AREA_PATTERN: nat := 0xcafebabe
  const FREE_AREA_PATTERN: nat := 0xdeadbeef
  const START_MARK_PATTERN: nat := 0xdadaface
  const END_MARK_PATTERN: nat := 0xadadafec

  // ---------------------------------------------------------------------------
  // Longs, patterns, markers
  // ---------------------------------------------------------------------------

  function Pow256(k: nat): (p: nat)
    ensures p > 0
  {
    if k == 0 then 1 else 256 * Pow256(k - 1)
  }

  /** The k low bytes of n, lowest first. */
  function LittleEndian(n: nat, k: nat): (s: seq<Byte>)
    ensures |s| == k
  {
    if k == 0 then [] else [n % 256] + LittleEndian(n / 256, k - 1)
  }

  function Word(s: seq<Byte>): nat {
    if s == [] then 0 else s[0] as int + 256 * Word(s[1..])
  }

  lemma {:induction false} WordOfBytes(n: nat, k: nat)
    requires n < Pow256(k)
    ensures Word(LittleEndian(n, k)) == n
  {
    if k > 0 {
      WordOfBytes(n / 256, k - 1);
      assert LittleEndian(n, k)[1..] == LittleEndian(n / 256, k - 1);
    }
  }

  /** The bytes of a number are those of no other. */
  lemma {:induction false} BytesOfWord(s: seq<Byte>)
    ensures LittleEndian(Word(s), |s|) == s && Word(s) < Pow256(|s|)
  {
    if s != [] {
      BytesOfWord(s[1..]);
      assert s == [s[0]] + s[1..];
    }
  }

  function Shifted(n: nat, i: nat): nat { if i == 0 then n else Shifted(n / 256, i - 1) }

  /** Byte i is what is left at the low end after i bytes have been shifted out. */
  lemma {:induction false} ByteAt(n: nat, k: nat, i: nat)
    requires i < k
    ensures LittleEndian(n, k)[i] == Shifted(n, i) % 256
  {
    if i > 0 {
      ByteAt(n / 256, k - 1, i - 1);
    }
  }

  /** A signed long read back from memory. */
  function DecodeLong(s: seq<Byte>): int
    requires |s| == LONG
  {
    if Word(s) < Pow256(LONG) / 2 then Word(s) else Word(s) - Pow256(LONG)
  }

  lemma DecodeStamp(n: nat)
    requires n < Pow256(LONG) / 2
    ensures DecodeLong(LittleEndian(n, LONG)) == n
  {
    WordOfBytes(n, LONG);
  }

  /** What fill() leaves: the bytes of a long, over and over. */
  function Pattern(n: nat, pattern: nat): (s: seq<Byte>)
    ensures |s| == n
  {
    if n <= LONG then LittleEndian(pattern, LONG)[..n] else LittleEndian(pattern, LONG) + Pattern(n - LONG, pattern)
  }

  /** A pattern begins with the bytes of a long, lowest first, and repeats every eight. */
  lemma {:induction false} PatternAt(n: nat, pattern: nat, i: nat)
    requires i < n
    ensures Pattern(n, pattern)[i] == if i < 8 then Shifted(pattern, i) % 256 else Pattern(n, pattern)[i - 8]
    decreases n
  {
    hide LittleEndian, Shifted;
    if i < LONG {
      ByteAt(pattern, LONG, i);
    } else if i < 2 * LONG {
      ByteAt(pattern, LONG, i - LONG);
      PatternAt(n - LONG, pattern, i - LONG);
    } else {
      PatternAt(n - LONG, pattern, i - LONG);
    }
  }

  function StartMark(n: nat): (s: seq<Byte>)
    ensures |s| == MARKER_SIZE
  {
    LittleEndian(n, LONG) + Pattern(MARKER_SIZE - LONG, 0xdadaface)
  }

  function EndMark(): (s: seq<Byte>)
    ensures |s| == MARKER_SIZE
  {
    Pattern(MARKER_SIZE, 0xadadafec)
  }

  function Overwrite(raw: seq<Byte>, off: nat, b: seq<Byte>): (s: seq<Byte>)
    requires off + |b| <= |raw|
    ensures |s| == |raw|
    ensures s[off..off + |b|] == b
    ensures forall i :: 0 <= i < |raw| && !(off <= i < off + |b|) ==> s[i] == raw[i]
  {
    raw[..off] + b + raw[off + |b|..]
  }

  /** fill(): a long at a time, then the rest. */
  method Fill(raw: seq<Byte>, off: nat, bytes: nat, pattern: nat) returns (out: seq<Byte>)
    requires off + bytes <= |raw|
    ensures out == Overwrite(raw, off, Pattern(bytes, pattern))
  {
    var word := LittleEndian(pattern, LONG);
    var at, left := off, bytes;
    out := raw;
    while left > LONG
      invariant off <= at && 0 <= left && at + left == off + bytes
      invariant |out| == |raw| && out[at..] == raw[at..]
      invariant out[..at] + Pattern(left, pattern) == raw[..off] + Pattern(bytes, pattern)
    {
      out := out[..at] + word + out[at + LONG..];
      at, left := at + LONG, left - LONG;
    }
    out := out[..at] + word[..left] + out[at + left..];
  }

  /** untouched(): the same walk, comparing. */
  method Untouched(raw: seq<Byte>, off: nat, bytes: nat, pattern: nat) returns (r: bool)
    requires off + bytes <= |raw|
    ensures r <==> raw[off..off + bytes] == Pattern(bytes, pattern)
  {
    var word := LittleEndian(pattern, LONG);
    var at, left := off, bytes;
    while left > LONG
      invariant off <= at && 0 <= left && at + left == off + bytes
      invariant raw[at..at + left] == Pattern(left, pattern) <==> raw[off..off + bytes] == Pattern(bytes, pattern)
    {
      ghost var rest, want := raw[at..at + left], Pattern(left, pattern);
      assert rest == raw[at..at + LONG] + raw[at + LONG..at + left];
      assert want[..LONG] == word && want[LONG..] == Pattern(left - LONG, pattern) && rest[..LONG] == raw[at..at + LONG];
      if raw[at..at + LONG] != word {
        return false;
      }
      at, left := at + LONG, left - LONG;
    }
    r := raw[at..at + left] == word[..left];
  }

  // ---------------------------------------------------------------------------
  // round_pow2
  // ---------------------------------------------------------------------------

  function Pow2(e: nat): (p: nat)
    ensures p > 0
  {
    if e == 0 then 1 else 2 * Pow2(e - 1)
  }

  lemma {:induction false} Pow2Grows(d: nat, e: nat)
    requires d <= e
    ensures Pow2(d) <= Pow2(e)
    decreases e
  {
    if d < e {
      Pow2Grows(d, e - 1);
    }
  }

  /** Rounds up to the least power of two, from 16 to 2^31; beyond that to 2^32 - 1. The result covers
      num exactly when num fits in 32 bits. */
  method RoundPow2(num: nat) returns (r: nat)
    ensures r >= num <==> num <= 0xffff_ffff
    ensures r >= 16
    ensures if num <= 0x8000_0000 then exists e: nat :: r == Pow2(e) && (e > 4 ==> Pow2(e - 1) < num)
            else r == 0xffff_ffff
  {
    assert Pow2(8) == 0x100;
    assert Pow2(16) == 0x1_0000;
    assert Pow2(24) == 0x100_0000;
    assert Pow2(31) == 0x8000_0000;
    if num <= 16 {
      assert Pow2(4) == 16;
      return 16;
    }
    var i := 32;
    ghost var e := 5;
    assert Pow2(5) == 32 && Pow2(4) == 16;
    while i < 0x8000_0000
      invariant 5 <= e <= 31 && i == Pow2(e) && Pow2(e - 1) < num
      decreases 31 - e
    {
      if num <= i {
        return i;
      }
      i := 2 * i;
      e := e + 1;
    }
    Pow2Grows(e, 31);
    if num <= 0x8000_0000 {
      return 0x8000_0000;
    }
    return 0xffff_ffff;
  }

  // ---------------------------------------------------------------------------
  // Blocks, the table and the ring
  // ---------------------------------------------------------------------------

  datatype Area = Area(area: int, areaSize: nat, maxSize: nat)

  type Memory = map<int, seq<Byte>>

  /** raw is a block for a: the start marker holds n, the end marker sits right behind the area, and both
      lie inside the block. */
  ghost predicate Block(raw: seq<Byte>, a: Area, n: nat) {
    && |raw| == a.maxSize + 2 * MARKER_SIZE
    && 0 < a.areaSize <= a.maxSize
    && raw[..MARKER_SIZE] == StartMark(n)
    && raw[MARKER_SIZE + a.areaSize..2 * MARKER_SIZE + a.areaSize] == EndMark()
  }

  /** The client's bytes. */
  ghost function User(raw: seq<Byte>, size: nat): seq<Byte>
    requires MARKER_SIZE + size <= |raw|
  {
    raw[MARKER_SIZE..MARKER_SIZE + size]
  }

  ghost predicate Poisoned(raw: seq<Byte>, a: Area) {
    MARKER_SIZE + a.areaSize <= |raw| && User(raw, a.areaSize) == Pattern(a.areaSize, 0xdeadbeef)
  }

  /** Every block the system has handed out has one place: a row of the table or a row of the ring. */
  datatype Place = Live(i: nat) | Quarantined(k: nat)

  type Places = map<int, Place>

  ghost predicate InTable(mem: Memory, own: Places, t: seq<Area>, i: nat) {
    && i < |t| && t[i].area in own && own[t[i].area] == Live(i)
    && t[i].area in mem && Block(mem[t[i].area], t[i], i)
  }

  ghost predicate InRing(mem: Memory, own: Places, r: seq<Area>, k: nat) {
    && k < |r| && r[k].area in own && own[r[k].area] == Quarantined(k)
    && r[k].area in mem && Block(mem[r[k].area], r[k], k) && Poisoned(mem[r[k].area], r[k])
  }

  ghost predicate Placed(own: Places, t: seq<Area>, r: seq<Area>, p: int)
    requires p in own
  {
    match own[p]
    case Live(i) => i < |t| && t[i].area == p
    case Quarantined(k) => k < |r| && r[k].area == p
  }

  ghost predicate Inv(mem: Memory, own: Places, t: seq<Area>, r: seq<Area>) {
    && own.Keys == mem.Keys
    && (forall i :: 0 <= i < |t| ==> InTable(mem, own, t, i))
    && (forall k :: 0 <= k < |r| ==> InRing(mem, own, r, k))
    && (forall p :: p in own ==> Placed(own, t, r, p))
  }

  /** Live rows are distinct blocks, and none of them is quarantined. */
  lemma LiveRowsDistinct(mem: Memory, own: Places, t: seq<Area>, r: seq<Area>)
    requires Inv(mem, own, t, r)
    ensures forall i, j :: 0 <= i < |t| && 0 <= j < |t| && t[i].area == t[j].area ==> i == j
    ensures forall i, k :: 0 <= i < |t| && 0 <= k < |r| ==> t[i].area != r[k].area
    ensures forall j, k :: 0 <= j < |r| && 0 <= k < |r| && r[j].area == r[k].area ==> j == k
  {
    forall i | 0 <= i < |t| ensures t[i].area in own && own[t[i].area] == Live(i) {
      assert InTable(mem, own, t, i);
    }
    forall k | 0 <= k < |r| ensures r[k].area in own && own[r[k].area] == Quarantined(k) {
      assert InRing(mem, own, r, k);
    }
  }

  ghost function Stamp(raw: seq<Byte>, n: nat): (s: seq<Byte>)
    requires MARKER_SIZE <= |raw|
    ensures |s| == |raw|
  {
    Overwrite(raw, 0, StartMark(n))
  }

  ghost function EndStamp(raw: seq<Byte>, size: nat): (s: seq<Byte>)
    requires 2 * MARKER_SIZE + size <= |raw|
    ensures |s| == |raw|
  {
    Overwrite(raw, MARKER_SIZE + size, EndMark())
  }

  ghost function Poison(raw: seq<Byte>, size: nat): (s: seq<Byte>)
    requires MARKER_SIZE + size <= |raw|
    ensures |s| == |raw|
  {
    Overwrite(raw, MARKER_SIZE, Pattern(size, FREE_AREA_PATTERN))
  }

  /** Restamping a block moves it to another row and leaves its bytes alone. */
  lemma StampMoves(raw: seq<Byte>, a: Area, n: nat, m: nat)
    requires Block(raw, a, n)
    ensures Block(Stamp(raw, m), a, m) && User(Stamp(raw, m), a.areaSize) == User(raw, a.areaSize)
  {
    var s := Stamp(raw, m);
    var e := MARKER_SIZE + a.areaSize;
    assert s[..MARKER_SIZE] == StartMark(m);
    assert s[e..e + MARKER_SIZE] == raw[e..e + MARKER_SIZE];
  }

  lemma PoisonKeepsBlock(raw: seq<Byte>, a: Area, n: nat)
    requires Block(raw, a, n)
    ensures Block(Poison(raw, a.areaSize), a, n) && Poisoned(Poison(raw, a.areaSize), a)
  {
    var s := Poison(raw, a.areaSize);
    var e := MARKER_SIZE + a.areaSize;
    assert s[..MARKER_SIZE] == raw[..MARKER_SIZE];
    assert s[e..e + MARKER_SIZE] == raw[e..e + MARKER_SIZE];
  }

  /** Moving the end marker resizes the area inside its block. */
  lemma EndStampResizes(raw: seq<Byte>, a: Area, n: nat, size: nat)
    requires Block(raw, a, n) && 0 < size <= a.maxSize
    ensures Block(EndStamp(raw, size), a.(areaSize := size), n)
    ensures forall b :: 0 <= b <= size && b <= a.areaSize ==> User(EndStamp(raw, size), b) == User(raw, b)
  {
    var s := EndStamp(raw, size);
    assert s[..MARKER_SIZE] == raw[..MARKER_SIZE];
  }

  // ---------------------------------------------------------------------------
  // What each move on the table and the ring keeps
  // ---------------------------------------------------------------------------

  lemma RecordKeeps(mem: Memory, own: Places, t: seq<Area>, r: seq<Area>, a: Area, raw: seq<Byte>)
    requires Inv(mem, own, t, r) && a.area !in mem && Block(raw, a, |t|)
    ensures Inv(mem[a.area := raw], own[a.area := Live(|t|)], t + [a], r)
  {
    var mem', own', t' := mem[a.area := raw], own[a.area := Live(|t|)], t + [a];
    forall i | 0 <= i < |t'| ensures InTable(mem', own', t', i) {
      assert i < |t| ==> InTable(mem, own, t, i);
    }
    forall k | 0 <= k < |r| ensures InRing(mem', own', r, k) {
      assert InRing(mem, own, r, k);
    }
    forall p | p in own' ensures Placed(own', t', r, p) {
      assert p != a.area ==> Placed(own, t, r, p);
    }
  }

  lemma RewriteKeeps(mem: Memory, own: Places, t: seq<Area>, r: seq<Area>, i: nat, a: Area, raw: seq<Byte>)
    requires Inv(mem, own, t, r) && i < |t| && a.area == t[i].area && Block(raw, a, i)
    ensures Inv(mem[a.area := raw], own, t[i := a], r)
  {
    var mem', t' := mem[a.area := raw], t[i := a];
    assert InTable(mem, own, t, i);
    forall j | 0 <= j < |t'| ensures InTable(mem', own, t', j) {
      assert InTable(mem, own, t, j);
    }
    forall k | 0 <= k < |r| ensures InRing(mem', own, r, k) {
      assert InRing(mem, own, r, k);
    }
    forall p | p in own ensures Placed(own, t', r, p) {
      assert Placed(own, t, r, p);
    }
  }

  /** remove_allocation: the last row fills the hole. */
  function Without(t: seq<Area>, i: nat): seq<Area>
    requires i < |t|
  {
    if i == |t| - 1 then t[..i] else t[..|t| - 1][i := t[|t| - 1]]
  }

  ghost function MemWithout(mem: Memory, t: seq<Area>, i: nat): Memory
    requires i < |t| && t[|t| - 1].area in mem && |mem[t[|t| - 1].area]| >= MARKER_SIZE
  {
    var last := t[|t| - 1].area;
    if i == |t| - 1 then mem - {last} else (mem - {t[i].area})[last := Stamp(mem[last], i)]
  }

  ghost function OwnWithout(own: Places, t: seq<Area>, i: nat): Places
    requires i < |t|
  {
    if i == |t| - 1 then own - {t[i].area} else (own - {t[i].area})[t[|t| - 1].area := Live(i)]
  }

  /** Taking row i out, block and all, keeps every other row; the moved row is restamped. */
  lemma RemoveKeeps(mem: Memory, own: Places, t: seq<Area>, r: seq<Area>, i: nat)
    requires Inv(mem, own, t, r) && i < |t|
    ensures InTable(mem, own, t, |t| - 1)
    ensures Inv(MemWithout(mem, t, i), OwnWithout(own, t, i), Without(t, i), r)
  {
    hide InTable, InRing, Placed, Block, Stamp;
    assert InTable(mem, own, t, |t| - 1);
    RemoveKeepsKeys(mem, own, t, r, i);
    var mem', own', t' := MemWithout(mem, t, i), OwnWithout(own, t, i), Without(t, i);
    forall j | 0 <= j < |t'| ensures InTable(mem', own', t', j) {
      RemoveKeepsRow(mem, own, t, r, i, j);
    }
    forall k | 0 <= k < |r| ensures InRing(mem', own', r, k) {
      RemoveKeepsRing(mem, own, t, r, i, k);
    }
    forall p | p in own' ensures Placed(own', t', r, p) {
      RemoveKeepsPlaced(mem, own, t, r, i, p);
    }
  }

  lemma RemoveKeepsKeys(mem: Memory, own: Places, t: seq<Area>, r: seq<Area>, i: nat)
    requires Inv(mem, own, t, r) && i < |t|
    ensures InTable(mem, own, t, |t| - 1) && t[|t| - 1].area in mem && |mem[t[|t| - 1].area]| >= MARKER_SIZE
    ensures OwnWithout(own, t, i).Keys == MemWithout(mem, t, i).Keys
  {
    hide InRing, Placed, Stamp;
    assert InTable(mem, own, t, |t| - 1);
  }

  lemma RemoveKeepsPlaced(mem: Memory, own: Places, t: seq<Area>, r: seq<Area>, i: nat, p: int)
    requires Inv(mem, own, t, r) && i < |t| && p in OwnWithout(own, t, i)
    ensures Placed(OwnWithout(own, t, i), Without(t, i), r, p)
  {
    hide Block, Stamp;
    assert InTable(mem, own, t, |t| - 1);
    assert Placed(own, t, r, p);
  }

  lemma RemoveKeepsRow(mem: Memory, own: Places, t: seq<Area>, r: seq<Area>, i: nat, j: nat)
    requires Inv(mem, own, t, r) && i < |t| && j < |t| - 1
    ensures InTable(mem, own, t, |t| - 1)
    ensures InTable(MemWithout(mem, t, i), OwnWithout(own, t, i), Without(t, i), j)
  {
    var n := |t| - 1;
    assert InTable(mem, own, t, n) && InTable(mem, own, t, i) && InTable(mem, own, t, j);
    StampMoves(mem[t[n].area], t[n], n, i);
    hide Inv, Block, Stamp;
    if j != i {
      assert t[j].area != t[i].area && t[j].area != t[n].area;
    }
  }

  lemma RemoveKeepsRing(mem: Memory, own: Places, t: seq<Area>, r: seq<Area>, i: nat, k: nat)
    requires Inv(mem, own, t, r) && i < |t| && k < |r|
    ensures InTable(mem, own, t, |t| - 1)
    ensures InRing(MemWithout(mem, t, i), OwnWithout(own, t, i), r, k)
  {
    var n := |t| - 1;
    assert InTable(mem, own, t, n) && InTable(mem, own, t, i) && InRing(mem, own, r, k);
    assert r[k].area != t[i].area && r[k].area != t[n].area;
  }

  lemma RingAppendKeeps(mem: Memory, own: Places, t: seq<Area>, r: seq<Area>, a: Area, raw: seq<Byte>)
    requires Inv(mem, own, t, r) && a.area !in mem && Block(raw, a, |r|) && Poisoned(raw, a)
    ensures Inv(mem[a.area := raw], own[a.area := Quarantined(|r|)], t, r + [a])
  {
    var mem', own', r' := mem[a.area := raw], own[a.area := Quarantined(|r|)], r + [a];
    forall i | 0 <= i < |t| ensures InTable(mem', own', t, i) {
      assert InTable(mem, own, t, i);
    }
    forall k | 0 <= k < |r'| ensures InRing(mem', own', r', k) {
      assert k < |r| ==> InRing(mem, own, r, k);
    }
    forall p | p in own' ensures Placed(own', t, r', p) {
      assert p != a.area ==> Placed(own, t, r, p);
    }
  }

  lemma RingReplaceKeeps(mem: Memory, own: Places, t: seq<Area>, r: seq<Area>, k: nat, a: Area, raw: seq<Byte>)
    requires Inv(mem, own, t, r) && k < |r| && a.area !in mem && Block(raw, a, k) && Poisoned(raw, a)
    ensures Inv((mem - {r[k].area})[a.area := raw], (own - {r[k].area})[a.area := Quarantined(k)], t, r[k := a])
  {
    assert InRing(mem, own, r, k);
    var mem', own' := (mem - {r[k].area})[a.area := raw], (own - {r[k].area})[a.area := Quarantined(k)];
    var r' := r[k := a];
    forall i | 0 <= i < |t| ensures InTable(mem', own', t, i) {
      assert InTable(mem, own, t, i);
    }
    forall j | 0 <= j < |r'| ensures InRing(mem', own', r', j) {
      assert InRing(mem, own, r, j);
    }
    forall p | p in own' ensures Placed(own', t, r', p) {
      assert p != a.area ==> Placed(own, t, r, p);
    }
  }

  // ---------------------------------------------------------------------------
  // The running total
  // ---------------------------------------------------------------------------

  ghost function Total(t: seq<Area>): nat {
    if t == [] then 0 else Total(t[..|t| - 1]) + t[|t| - 1].areaSize
  }

  lemma TotalAppend(t: seq<Area>, a: Area)
    ensures Total(t + [a]) == Total(t) + a.areaSize
  {
    assert (t + [a])[..|t|] == t;
  }

  lemma {:induction false} TotalUpdate(t: seq<Area>, i: nat, a: Area)
    requires i < |t|
    ensures Total(t[i := a]) == Total(t) - t[i].areaSize + a.areaSize
    decreases |t|
  {
    var n := |t| - 1;
    if i == n {
      assert t[i := a][..n] == t[..n];
    } else {
      assert t[i := a][..n] == t[..n][i := a];
      TotalUpdate(t[..n], i, a);
    }
  }

  lemma TotalWithout(t: seq<Area>, i: nat)
    requires i < |t|
    ensures Total(Without(t, i)) == Total(t) - t[i].areaSize
  {
    var n := |t| - 1;
    if i < n {
      TotalUpdate(t[..n], i, t[n]);
    }
  }

  // ---------------------------------------------------------------------------
  // What clients see
  // ---------------------------------------------------------------------------

  ghost predicate IsLive(own: Places, t: seq<Area>, p: int) {
    p in own && own[p].Live? && own[p].i < |t|
  }

  /** Block q is live before and after, with the same sizes and the same client bytes. */
  ghost predicate Kept(mem: Memory, own: Places, t: seq<Area>, mem': Memory, own': Places, t': seq<Area>, q: int) {
    && IsLive(own, t, q) && IsLive(own', t', q) && q in mem && q in mem'
    && t'[own'[q].i] == t[own[q].i]
    && |mem[q]| == |mem'[q]| >= MARKER_SIZE + t[own[q].i].areaSize
    && User(mem'[q], t[own[q].i].areaSize) == User(mem[q], t[own[q].i].areaSize)
  }

  lemma LiveBlock(mem: Memory, own: Places, t: seq<Area>, r: seq<Area>, q: int)
    requires Inv(mem, own, t, r) && IsLive(own, t, q)
    ensures t[own[q].i].area == q && InTable(mem, own, t, own[q].i) && Kept(mem, own, t, mem, own, t, q)
  {
    assert Placed(own, t, r, q);
    assert InTable(mem, own, t, own[q].i);
  }

  lemma RemoveKeepsOthers(mem: Memory, own: Places, t: seq<Area>, r: seq<Area>, i: nat, q: int)
    requires Inv(mem, own, t, r) && i < |t| && IsLive(own, t, q) && q != t[i].area
    ensures InTable(mem, own, t, |t| - 1)
    ensures Kept(mem, own, t, MemWithout(mem, t, i), OwnWithout(own, t, i), Without(t, i), q)
  {
    var n := |t| - 1;
    assert InTable(mem, own, t, n) && InTable(mem, own, t, i);
    LiveBlock(mem, own, t, r, q);
    StampMoves(mem[t[n].area], t[n], n, i);
    RemovedElsewhere(mem, own, t, i, q);
  }

  lemma RemovedElsewhere(mem: Memory, own: Places, t: seq<Area>, i: nat, q: int)
    requires i < |t| && InTable(mem, own, t, |t| - 1) && IsLive(own, t, q) && t[own[q].i].area == q != t[i].area
    requires InTable(mem, own, t, own[q].i)
    requires User(Stamp(mem[t[|t| - 1].area], i), t[|t| - 1].areaSize) == User(mem[t[|t| - 1].area], t[|t| - 1].areaSize)
    ensures Kept(mem, own, t, MemWithout(mem, t, i), OwnWithout(own, t, i), Without(t, i), q)
  {
    hide Overwrite, StartMark, EndMark;
    var n, j := |t| - 1, own[q].i;
    if j != n {
      assert q != t[n].area && Without(t, i)[j] == t[j];
    }
  }

  /** Any block in memory is long enough to have its start marker read. */
  lemma OneOf(mem: Memory, own: Places, t: seq<Area>, r: seq<Area>, p: int)
    requires Inv(mem, own, t, r) && (p in mem || IsLive(own, t, p))
    ensures p in mem && MARKER_SIZE <= |mem[p]|
  {
    assert Placed(own, t, r, p);
    match own[p]
    case Live(i) => assert InTable(mem, own, t, i);
    case Quarantined(k) => assert InRing(mem, own, r, k);
  }

  /** Where the freed block ends up; p is the pointer of row i. */
  ghost function MemAfterFree(mem: Memory, t: seq<Area>, r: seq<Area>, start: nat, i: nat): Memory
    requires i < |t| && t[|t| - 1].area in mem && |mem[t[|t| - 1].area]| >= MARKER_SIZE
    requires t[i].area in mem && MARKER_SIZE + t[i].areaSize <= |mem[t[i].area]|
    requires |r| < FREE_RING_SIZE || start < |r|
  {
    var p, raw := t[i].area, Poison(mem[t[i].area], t[i].areaSize);
    if |r| < FREE_RING_SIZE then MemWithout(mem, t, i)[p := Stamp(raw, |r|)]
    else (MemWithout(mem, t, i) - {r[start].area})[p := Stamp(raw, start)]
  }

  ghost function OwnAfterFree(own: Places, t: seq<Area>, r: seq<Area>, start: nat, i: nat): Places
    requires i < |t| && (|r| < FREE_RING_SIZE || start < |r|)
  {
    if |r| < FREE_RING_SIZE then OwnWithout(own, t, i)[t[i].area := Quarantined(|r|)]
    else (OwnWithout(own, t, i) - {r[start].area})[t[i].area := Quarantined(start)]
  }

  ghost function RingAfterFree(r: seq<Area>, start: nat, a: Area): seq<Area>
    requires |r| < FREE_RING_SIZE || start < |r|
  {
    if |r| < FREE_RING_SIZE then r + [a] else r[start := a]
  }

  /** Freeing row i moves its block to the ring, releases at most the block whose turn it is, and keeps the
      rest. */
  lemma FreeKeeps(mem: Memory, own: Places, t: seq<Area>, r: seq<Area>, start: nat, i: nat)
    requires Inv(mem, own, t, r) && i < |t| && (|r| < FREE_RING_SIZE || start < |r|)
    ensures InTable(mem, own, t, |t| - 1) && InTable(mem, own, t, i)
    ensures start < |r| ==> InRing(mem, own, r, start)
    ensures MemAfterFree(mem, t, r, start, i).Keys <= mem.Keys
    ensures !IsLive(OwnAfterFree(own, t, r, start, i), Without(t, i), t[i].area)
    ensures Inv(MemAfterFree(mem, t, r, start, i), OwnAfterFree(own, t, r, start, i),
                Without(t, i), RingAfterFree(r, start, t[i]))
  {
    var n, a := |t| - 1, t[i];
    assert InTable(mem, own, t, n) && InTable(mem, own, t, i);
    assert start < |r| ==> InRing(mem, own, r, start);
    RemoveKeeps(mem, own, t, r, i);
    PoisonKeepsBlock(mem[a.area], a, i);
    var raw := Poison(mem[a.area], a.areaSize);
    var k := if |r| < FREE_RING_SIZE then |r| else start;
    StampMoves(raw, a, i, k);
    var m, o, w := MemWithout(mem, t, i), OwnWithout(own, t, i), Without(t, i);
    if |r| < FREE_RING_SIZE {
      RingAppendKeeps(m, o, w, r, a, Stamp(raw, k));
    } else {
      RingReplaceKeeps(m, o, w, r, k, a, Stamp(raw, k));
    }
  }

  lemma FreeKeepsOthers(mem: Memory, own: Places, t: seq<Area>, r: seq<Area>, start: nat, i: nat, q: int)
    requires Inv(mem, own, t, r) && i < |t| && (|r| < FREE_RING_SIZE || start < |r|)
    requires IsLive(own, t, q) && q != t[i].area
    ensures InTable(mem, own, t, |t| - 1) && InTable(mem, own, t, i)
    ensures Kept(mem, own, t, MemAfterFree(mem, t, r, start, i), OwnAfterFree(own, t, r, start, i), Without(t, i), q)
  {
    RemoveKeepsOthers(mem, own, t, r, i, q);
    assert InTable(mem, own, t, i);
    if |r| == FREE_RING_SIZE {
      assert InRing(mem, own, r, start);
    }
  }

  lemma FreeKeepsAllOthers(mem: Memory, own: Places, t: seq<Area>, r: seq<Area>, start: nat, i: nat)
    requires Inv(mem, own, t, r) && i < |t| && (|r| < FREE_RING_SIZE || start < |r|)
    ensures InTable(mem, own, t, |t| - 1) && InTable(mem, own, t, i)
    ensures forall q :: IsLive(own, t, q) && q != t[i].area ==>
              Kept(mem, own, t, MemAfterFree(mem, t, r, start, i), OwnAfterFree(own, t, r, start, i), Without(t, i), q)
  {
    assert InTable(mem, own, t, |t| - 1) && InTable(mem, own, t, i);
    forall q | IsLive(own, t, q) && q != t[i].area
      ensures Kept(mem, own, t, MemAfterFree(mem, t, r, start, i), OwnAfterFree(own, t, r, start, i), Without(t, i), q)
    {
      FreeKeepsOthers(mem, own, t, r, start, i, q);
    }
  }

  /** The order in which the code writes memory comes to the same. */
  lemma FreeSteps(mem: Memory, own: Places, t: seq<Area>, r: seq<Area>, start: nat, i: nat)
    requires i < |t| && InTable(mem, own, t, |t| - 1) && InTable(mem, own, t, i)
    requires |r| <= FREE_RING_SIZE && (start < |r| ==> InRing(mem, own, r, start)) && (|r| < FREE_RING_SIZE || start < |r|)
    ensures
      var p, last := t[i].area, t[|t| - 1].area;
      && p in mem && MARKER_SIZE + t[i].areaSize <= |mem[p]|
      && var poisoned := mem[p := Poison(mem[p], t[i].areaSize)];
      && (start < |r| ==>
            && r[start].area in poisoned && r[start].area != p && r[start].area != last
            && 2 * MARKER_SIZE + r[start].areaSize <= |poisoned[r[start].area]|)
      && var ringed := if |r| < FREE_RING_SIZE then poisoned[p := Stamp(poisoned[p], |r|)]
                       else (poisoned - {r[start].area})[p := Stamp(poisoned[p], start)];
         && last in ringed && |ringed[last]| >= MARKER_SIZE
         && MemAfterFree(mem, t, r, start, i) == if i == |t| - 1 then ringed else ringed[last := Stamp(ringed[last], i)]
  {
  }

  lemma AdoptedBlock(raw: seq<Byte>, a: Area, n: nat)
    requires 0 < a.areaSize <= a.maxSize && |raw| == a.maxSize + 2 * MARKER_SIZE
    ensures Block(EndStamp(Stamp(raw, n), a.areaSize), a, n)
    ensures User(EndStamp(Stamp(raw, n), a.areaSize), a.areaSize) == User(raw, a.areaSize)
  {
    var s := Stamp(raw, n);
    var b := EndStamp(s, a.areaSize);
    assert b[..MARKER_SIZE] == s[..MARKER_SIZE] == StartMark(n);
  }

  lemma AdoptKeepsOthers(mem: Memory, own: Places, t: seq<Area>, r: seq<Area>, a: Area, raw: seq<Byte>)
    requires Inv(mem, own, t, r) && a.area !in mem
    ensures forall q :: IsLive(own, t, q) ==> Kept(mem, own, t, mem[a.area := raw], own[a.area := Live(|t|)], t + [a], q)
  {
    forall q | IsLive(own, t, q)
      ensures Kept(mem, own, t, mem[a.area := raw], own[a.area := Live(|t|)], t + [a], q)
    {
      LiveBlock(mem, own, t, r, q);
    }
  }

  lemma WriteKeepsBlock(raw: seq<Byte>, a: Area, n: nat, off: nat, bytes: seq<Byte>)
    requires Block(raw, a, n) && off + |bytes| <= a.areaSize
    ensures Block(Overwrite(raw, MARKER_SIZE + off, bytes), a, n)
  {
    hide StartMark, EndMark;
    var s := Overwrite(raw, MARKER_SIZE + off, bytes);
    var e := MARKER_SIZE + a.areaSize;
    assert s[..MARKER_SIZE] == raw[..MARKER_SIZE];
    assert s[e..e + MARKER_SIZE] == raw[e..e + MARKER_SIZE];
  }

  // ---------------------------------------------------------------------------
  // The order of releases
  // ---------------------------------------------------------------------------

  /** The ring holds the last blocks freed, oldest at start; all older ones have been released, in order. */
  ghost predicate Fifo(freed: seq<int>, released: seq<int>, r: seq<Area>, start: nat) {
    && |r| == (if |freed| < FREE_RING_SIZE then |freed| else FREE_RING_SIZE)
    && released == freed[..|freed| - |r|]
    && start < FREE_RING_SIZE && (|r| < FREE_RING_SIZE ==> start == 0)
    && forall k :: 0 <= k < |r| ==> Age(k, start) < |r| && r[k].area == freed[|freed| - |r| + Age(k, start)]
  }

  /** How many places behind the oldest block slot k is. */
  ghost function Age(k: nat, start: nat): nat
    requires start < FREE_RING_SIZE
  {
    if start <= k then k - start else k + FREE_RING_SIZE - start
  }

  lemma FifoFree(freed: seq<int>, released: seq<int>, r: seq<Area>, start: nat, a: Area)
    requires Fifo(freed, released, r, start)
    ensures Fifo(freed + [a.area],
                 if |r| < FREE_RING_SIZE then released else released + [r[start].area],
                 RingAfterFree(r, start, a),
                 if |r| < FREE_RING_SIZE then start else (start + 1) % FREE_RING_SIZE)
  {
    if |r| < FREE_RING_SIZE {
      assert released == [];
    } else {
      assert r[start].area == freed[|freed| - |r|];
    }
  }

  /** Before any leak check, after n frees exactly the first n - 1024 freed blocks have been released: the
      k-th freed block goes back at the (k + 1024)-th free. */
  lemma ReleasedOnTime(freed: seq<int>, released: seq<int>, r: seq<Area>, start: nat, k: nat)
    requires Fifo(freed, released, r, start) && k < |freed|
    ensures k < |released| <==> k + 1024 < |freed|
    ensures k < |released| ==> released[k] == freed[k]
  {
  }

  // ---------------------------------------------------------------------------
  // The allocator
  // ---------------------------------------------------------------------------

  ghost predicate Sound(mem: Memory, own: Places, t: seq<Area>, r: seq<Area>, start: nat,
                        total: int, freed: seq<int>, released: seq<int>, leaksChecked: bool)
  {
    && Inv(mem, own, t, r)
    && total == Total(t)
    && (!leaksChecked ==> Fifo(freed, released, r, start))
  }

  /** The allocator after row i has been freed is sound, and every other live block is as it was. */
  lemma FreeKeepsSound(mem: Memory, own: Places, t: seq<Area>, r: seq<Area>, start: nat,
                       total: int, freed: seq<int>, released: seq<int>, leaksChecked: bool, i: nat)
    requires Sound(mem, own, t, r, start, total, freed, released, leaksChecked)
    requires i < |t| && (|r| < FREE_RING_SIZE || start < |r|)
    ensures InTable(mem, own, t, |t| - 1) && InTable(mem, own, t, i)
    ensures start < |r| ==> InRing(mem, own, r, start)
    ensures MemAfterFree(mem, t, r, start, i).Keys <= mem.Keys
    ensures !IsLive(OwnAfterFree(own, t, r, start, i), Without(t, i), t[i].area)
    ensures Sound(MemAfterFree(mem, t, r, start, i), OwnAfterFree(own, t, r, start, i),
                  Without(t, i), RingAfterFree(r, start, t[i]),
                  if |r| < FREE_RING_SIZE then start else (start + 1) % FREE_RING_SIZE,
                  total - t[i].areaSize, freed + [t[i].area],
                  if |r| < FREE_RING_SIZE then released else released + [r[start].area], leaksChecked)
    ensures forall q :: IsLive(own, t, q) && q != t[i].area ==>
              Kept(mem, own, t, MemAfterFree(mem, t, r, start, i), OwnAfterFree(own, t, r, start, i), Without(t, i), q)
  {
    FreeKeeps(mem, own, t, r, start, i);
    FreeKeepsAllOthers(mem, own, t, r, start, i);
    TotalWithout(t, i);
    if !leaksChecked {
      FifoFree(freed, released, r, start, t[i]);
    }
  }

  /** Both blocks hold the same bytes as far as both areas go. */
  ghost predicate Prefixes(raw: seq<Byte>, raw': seq<Byte>, size: nat, size': nat) {
    && MARKER_SIZE + size <= |raw| && MARKER_SIZE + size' <= |raw'|
    && forall b: nat :: b <= size && b <= size' ==> User(raw', b) == User(raw, b)
  }

  lemma AdoptKeepsSound(mem: Memory, own: Places, t: seq<Area>, r: seq<Area>, start: nat,
                        total: int, freed: seq<int>, released: seq<int>, leaksChecked: bool, a: Area, raw: seq<Byte>)
    requires Sound(mem, own, t, r, start, total, freed, released, leaksChecked) && a.area !in mem
    requires 0 < a.areaSize <= a.maxSize && |raw| == a.maxSize + 2 * MARKER_SIZE
    ensures var b := EndStamp(Stamp(raw, |t|), a.areaSize);
            && |b| == |raw| && User(b, a.areaSize) == User(raw, a.areaSize)
            && Sound(mem[a.area := b], own[a.area := Live(|t|)], t + [a], r, start, total + a.areaSize, freed, released, leaksChecked)
            && forall q :: IsLive(own, t, q) ==> Kept(mem, own, t, mem[a.area := b], own[a.area := Live(|t|)], t + [a], q)
  {
    var b := EndStamp(Stamp(raw, |t|), a.areaSize);
    AdoptedBlock(raw, a, |t|);
    RecordKeeps(mem, own, t, r, a, b);
    TotalAppend(t, a);
    AdoptKeepsOthers(mem, own, t, r, a, b);
  }

  lemma ResizeKeepsSound(mem: Memory, own: Places, t: seq<Area>, r: seq<Area>, start: nat,
                         total: int, freed: seq<int>, released: seq<int>, leaksChecked: bool, i: nat, size: nat)
    requires Sound(mem, own, t, r, start, total, freed, released, leaksChecked)
    requires i < |t| && 0 < size <= t[i].maxSize
    ensures var p, a := t[i].area, t[i].(areaSize := size);
            && p in mem && 2 * MARKER_SIZE + size <= |mem[p]|
            && var mem' := mem[p := EndStamp(mem[p], size)];
               && Sound(mem', own, t[i := a], r, start, total + (size - t[i].areaSize), freed, released, leaksChecked)
               && Prefixes(mem[p], mem'[p], t[i].areaSize, size)
               && forall q :: IsLive(own, t, q) && q != p ==> Kept(mem, own, t, mem', own, t[i := a], q)
  {
    var p, a := t[i].area, t[i].(areaSize := size);
    assert InTable(mem, own, t, i);
    EndStampResizes(mem[p], t[i], i, size);
    RewriteKeeps(mem, own, t, r, i, a, EndStamp(mem[p], size));
    TotalUpdate(t, i, a);
    forall q | IsLive(own, t, q) && q != p
      ensures Kept(mem, own, t, mem[p := EndStamp(mem[p], size)], own, t[i := a], q)
    {
      LiveBlock(mem, own, t, r, q);
    }
  }

  /** What a row of the table says about its block; and keeping is reflexive. */
  lemma RowFacts(mem: Memory, own: Places, t: seq<Area>, r: seq<Area>, start: nat,
                 total: int, freed: seq<int>, released: seq<int>, leaksChecked: bool, i: nat)
    requires Sound(mem, own, t, r, start, total, freed, released, leaksChecked) && i < |t|
    ensures var p := t[i].area;
            && p in mem && |mem[p]| == t[i].maxSize + 2 * MARKER_SIZE && 0 < t[i].areaSize <= t[i].maxSize
            && p in own && own[p] == Live(i)
            && own.Keys == mem.Keys
            && Prefixes(mem[p], mem[p], t[i].areaSize, t[i].areaSize)
    ensures forall q :: IsLive(own, t, q) ==> Kept(mem, own, t, mem, own, t, q)
  {
    assert InTable(mem, own, t, i);
    forall q | IsLive(own, t, q)
      ensures Kept(mem, own, t, mem, own, t, q)
    {
      LiveBlock(mem, own, t, r, q);
    }
  }

  /** The bytes of the area beyond the first size ones are those of a new area. */
  ghost predicate Extended(raw: seq<Byte>, size: nat, size': nat) {
    size <= size' && MARKER_SIZE + size' <= |raw| && User(raw, size')[size..] == Pattern(size' - size, 0xcafebabe)
  }

  lemma FilledExtends(copied: seq<Byte>, filled: seq<Byte>, size: nat, size': nat)
    requires size < size' && MARKER_SIZE + size' <= |copied|
    requires filled == Overwrite(copied, MARKER_SIZE + size, Pattern(size' - size, NEW_AREA_PATTERN))
    ensures Extended(filled, size, size')
  {
    hide Pattern;
    assert User(filled, size')[size..] == filled[MARKER_SIZE + size..MARKER_SIZE + size'];
  }

  lemma CopiedBytes(raw: seq<Byte>, copied: seq<Byte>, filled: seq<Byte>, size: nat, size': nat)
    requires MARKER_SIZE + size <= |raw| && size < size' && MARKER_SIZE + size' <= |copied|
    requires copied[MARKER_SIZE..MARKER_SIZE + size] == User(raw, size)
    requires filled == Overwrite(copied, MARKER_SIZE + size, Pattern(size' - size, NEW_AREA_PATTERN))
    ensures Prefixes(raw, filled, size, size')
  {
    assert User(filled, size) == User(copied, size);
    forall b: nat | b <= size
      ensures User(filled, b) == User(raw, b)
    {
      assert User(filled, b) == User(filled, size)[..b] && User(raw, b) == User(raw, size)[..b];
    }
  }

  lemma MovedBytes(raw: seq<Byte>, filled: seq<Byte>, m1: Memory, own1: Places, t1: seq<Area>,
                   m2: Memory, own2: Places, t2: seq<Area>, q: int, size: nat, size': nat)
    requires Prefixes(raw, filled, size, size') && Kept(m1, own1, t1, m2, own2, t2, q)
    requires t1[own1[q].i].areaSize == size' && |m1[q]| == |filled| && User(m1[q], size') == User(filled, size')
    requires Extended(filled, size, size')
    ensures q in m2 && Extended(m2[q], size, size')
    ensures q in m2 && IsLive(own2, t2, q) && t2[own2[q].i].areaSize == size'
    ensures Prefixes(raw, m2[q], size, size')
  {
    hide Pattern;
    forall b: nat | b <= size && b <= size'
      ensures User(m2[q], b) == User(raw, b)
    {
      UserPrefix(m2[q], b, size');
      UserPrefix(filled, b, size');
    }
  }

  lemma UserPrefix(raw: seq<Byte>, b: nat, size: nat)
    requires b <= size && MARKER_SIZE + size <= |raw|
    ensures User(raw, b) == User(raw, size)[..b]
  {
  }

  lemma KeptTwice(m: Memory, own: Places, t: seq<Area>, m1: Memory, own1: Places, t1: seq<Area>,
                  m2: Memory, own2: Places, t2: seq<Area>, p: int, newP: int)
    requires forall q :: IsLive(own, t, q) && q != newP ==> Kept(m, own, t, m1, own1, t1, q)
    requires forall q :: IsLive(own1, t1, q) && q != p ==> Kept(m1, own1, t1, m2, own2, t2, q)
    requires !IsLive(own, t, newP)
    ensures forall q :: IsLive(own, t, q) && q != p ==> Kept(m, own, t, m2, own2, t2, q)
  {
    forall q | IsLive(own, t, q) && q != p
      ensures Kept(m, own, t, m2, own2, t2, q)
    {
      assert Kept(m, own, t, m1, own1, t1, q);
      assert Kept(m1, own1, t1, m2, own2, t2, q);
    }
  }

  ghost function Undropped(mem: Memory, r: seq<Area>, k: nat): Memory
    requires k <= |r|
  {
    mem - (set j | 0 <= j < k :: r[j].area)
  }

  ghost function Pointers(r: seq<Area>, k: nat): seq<int>
    requires k <= |r|
  {
    if k == 0 then [] else Pointers(r, k - 1) + [r[k - 1].area]
  }

  lemma UndroppedNone(mem: Memory, r: seq<Area>)
    ensures Undropped(mem, r, 0) == mem
  {
  }

  /** Whoever is next in line is still there, untouched. */
  lemma DropFine(mem: Memory, own: Places, t: seq<Area>, r: seq<Area>, k: nat)
    requires Inv(mem, own, t, r) && k < |r|
    ensures var a, left := r[k], Undropped(mem, r, k);
            && a.area in left && Block(left[a.area], a, k) && Poisoned(left[a.area], a)
            && left - {a.area} == Undropped(mem, r, k + 1)
  {
    LiveRowsDistinct(mem, own, t, r);
    assert InRing(mem, own, r, k);
  }

  lemma EmptyRingSound(mem: Memory, own: Places, t: seq<Area>, r: seq<Area>, start: nat,
                       total: int, freed: seq<int>, released: seq<int>, leaksChecked: bool)
    requires Sound(mem, own, t, r, start, total, freed, released, leaksChecked)
    ensures Inv(Undropped(mem, r, |r|), own - (set k | 0 <= k < |r| :: r[k].area), t, [])
    ensures forall i :: 0 <= i < |t| ==> t[i].area in mem && t[i].area in Undropped(mem, r, |r|)
  {
    LiveRowsDistinct(mem, own, t, r);
    var mem', own' := Undropped(mem, r, |r|), own - (set k | 0 <= k < |r| :: r[k].area);
    forall i | 0 <= i < |t| ensures InTable(mem', own', t, i) && t[i].area in mem {
      assert InTable(mem, own, t, i);
    }
    forall p | p in own' ensures Placed(own', t, [], p) {
      assert Placed(own, t, r, p);
    }
  }

  datatype Outcome = Pointer(p: int) | Panic

  lemma IndexFits(n: nat)
    requires n < 0x1_0000_0000
    ensures n < Pow256(LONG) / 2
  {
    assert Pow256(4) == 0x1_0000_0000;
    assert Pow256(8) == 0x1_0000_0000_0000_0000;
  }

  lemma StampIsTwoFills(raw: seq<Byte>, n: nat)
    requires MARKER_SIZE <= |raw|
    ensures Overwrite(Overwrite(raw, 0, Pattern(LONG, n)), LONG, Pattern(MARKER_SIZE - LONG, START_MARK_PATTERN)) == Stamp(raw, n)
  {
  }

  /** A start marker with its pattern in place is that of the number in it. */
  lemma MarkIs(raw: seq<Byte>)
    requires MARKER_SIZE <= |raw| && raw[LONG..MARKER_SIZE] == Pattern(MARKER_SIZE - LONG, START_MARK_PATTERN)
    ensures forall k: nat :: k < 0x1_0000_0000 && DecodeLong(raw[..LONG]) == k ==> raw[..MARKER_SIZE] == StartMark(k)
  {
    hide LittleEndian, Word, Pattern;
    BytesOfWord(raw[..LONG]);
    assert raw[..MARKER_SIZE] == raw[..LONG] + raw[LONG..MARKER_SIZE];
    forall k: nat | k < 0x1_0000_0000 && DecodeLong(raw[..LONG]) == k
      ensures raw[..MARKER_SIZE] == StartMark(k)
    {
      assert Word(raw[..LONG]) == k;
    }
  }

  const NULL: int := 0

  /** A pointer that is one of the fill patterns has most likely been read from uninitialised or freed memory. */
  predicate Suspicious(p: int) {
    p == NEW_AREA_PATTERN || p == FREE_AREA_PATTERN || p == START_MARK_PATTERN || p == END_MARK_PATTERN
  }

  class Allocator {
    var memory: Memory
    /** The static tables: their lengths never change. */
    var rows: seq<Area>
    var freeRing: seq<Area>
    const maxAllocations: nat
    var numAllocations: nat
    var freeRingStart: nat
    var freeRingLen: nat
    var totalSize: int
    const slow: bool

    ghost var own: Places
    /** Blocks freed by clients and blocks given back to the system, in order. */
    ghost var freed: seq<int>
    ghost var released: seq<int>
    ghost var leaksChecked: bool

    ghost predicate Bounds()
      reads this
    {
      && |rows| == maxAllocations < 0x1_0000_0000
      && numAllocations <= maxAllocations
      && |freeRing| == FREE_RING_SIZE && freeRingLen <= FREE_RING_SIZE && freeRingStart < FREE_RING_SIZE
    }

    ghost function Table(): seq<Area>
      requires Bounds()
      reads this
    {
      rows[..numAllocations]
    }

    ghost function Ring(): seq<Area>
      requires Bounds()
      reads this
    {
      freeRing[..freeRingLen]
    }

    ghost predicate Valid()
      reads this
    {
      && Bounds()
      && Sound(memory, own, Table(), Ring(), freeRingStart, totalSize, freed, released, leaksChecked)
    }

    ghost predicate Alive(p: int)
      requires Bounds()
      reads this
    {
      IsLive(own, Table(), p)
    }

    /** Every live block but p is live as before, sizes and bytes. */
    twostate predicate OthersKept(p: int)
      requires old(Bounds()) && Bounds()
      reads this
    {
      forall q :: old(Alive(q)) && q != p ==> Kept(old(memory), old(own), old(Table()), memory, own, Table(), q)
    }

    constructor (capacity: nat, slowFlag: bool)
      requires capacity < 0x1_0000_0000
      ensures Valid() && memory == map[] && !leaksChecked
      ensures numAllocations == 0 && maxAllocations == capacity && slow == slowFlag
    {
      memory, own := map[], map[];
      maxAllocations := capacity;
      rows := seq(capacity, _ => Area(0, 0, 0));
      freeRing := seq(FREE_RING_SIZE, _ => Area(0, 0, 0));
      numAllocations, freeRingStart, freeRingLen, totalSize := 0, 0, 0, 0;
      freed, released, leaksChecked := [], [], false;
      slow := slowFlag;
      new;
      assert Table() == [] && Ring() == [];
    }

    method MarkStart(p: int, n: nat)
      requires p in memory && MARKER_SIZE <= |memory[p]|
      modifies `memory
      ensures memory == old(memory)[p := Stamp(old(memory)[p], n)]
    {
      var raw := Fill(memory[p], 0, LONG, n);
      raw := Fill(raw, LONG, MARKER_SIZE - LONG, START_MARK_PATTERN);
      StampIsTwoFills(memory[p], n);
      memory := memory[p := raw];
    }

    method MarkEnd(p: int, size: nat)
      requires p in memory && 2 * MARKER_SIZE + size <= |memory[p]|
      modifies `memory
      ensures memory == old(memory)[p := EndStamp(old(memory)[p], size)]
    {
      var raw := Fill(memory[p], MARKER_SIZE + size, MARKER_SIZE, END_MARK_PATTERN);
      memory := memory[p := raw];
    }

    /** The number in the start marker, or -1 if the marker looks damaged. */
    method CheckStartmark(p: int) returns (n: int)
      requires p in memory && MARKER_SIZE <= |memory[p]|
      ensures forall k: nat :: k < 0x1_0000_0000 ==> (n == k <==> memory[p][..MARKER_SIZE] == StartMark(k))
    {
      var ok := Untouched(memory[p], LONG, MARKER_SIZE - LONG, START_MARK_PATTERN);
      forall k: nat | k < 0x1_0000_0000 && memory[p][..MARKER_SIZE] == StartMark(k)
        ensures ok && DecodeLong(memory[p][..LONG]) == k
      {
        IndexFits(k);
        DecodeStamp(k);
        assert memory[p][..LONG] == StartMark(k)[..LONG];
        assert memory[p][LONG..MARKER_SIZE] == StartMark(k)[LONG..];
      }
      if !ok {
        return -1;
      }
      n := DecodeLong(memory[p][..LONG]);
      MarkIs(memory[p]);
    }

    /** Both markers of an area where its row says they are. */
    method CheckMarks(a: Area, n: nat) returns (intact: bool)
      requires a.area in memory && 2 * MARKER_SIZE + a.areaSize <= |memory[a.area]| && n < 0x1_0000_0000
      ensures intact <==>
                && memory[a.area][..MARKER_SIZE] == StartMark(n)
                && memory[a.area][MARKER_SIZE + a.areaSize..2 * MARKER_SIZE + a.areaSize] == EndMark()
    {
      hide Pattern, StartMark, LittleEndian;
      var number := CheckStartmark(a.area);
      var tail := Untouched(memory[a.area], MARKER_SIZE + a.areaSize, MARKER_SIZE, END_MARK_PATTERN);
      intact := number == n && tail;
    }

    method LinearSearch(p: int) returns (index: int)
      requires Valid()
      ensures index == -1 || (0 <= index < numAllocations && rows[index].area == p)
      ensures index >= 0 <==> Alive(p)
      ensures index >= 0 ==> index == own[p].i
    {
      for i := 0 to numAllocations
        invariant forall j :: 0 <= j < i ==> rows[j].area != p
      {
        if rows[i].area == p {
          assert InTable(memory, own, Table(), i);
          return i;
        }
      }
      if Alive(p) {
        LiveBlock(memory, own, Table(), Ring(), p);
      }
      index := -1;
    }

    /** find_area: the marker leads straight to the row that a linear search would find; the search after a
        damaged marker is never needed for a live area. A pointer whose memory cannot be read is looked up
        only in slow mode or when it looks like a fill pattern. */
    method FindArea(p: int) returns (index: int, byMarker: bool)
      requires Valid() && (p in memory || slow || Suspicious(p))
      ensures index >= 0 <==> Alive(p)
      ensures index >= 0 ==> index == own[p].i && index < numAllocations && rows[index].area == p && byMarker
    {
      byMarker := false;
      if slow || Suspicious(p) {
        index := LinearSearch(p);
        if index < 0 {
          return;
        }
      }
      OneOf(memory, own, Table(), Ring(), p);
      index := CheckStartmark(p);
      if 0 <= index < numAllocations && rows[index].area == p {
        assert InTable(memory, own, Table(), index);
        byMarker := true;
        return;
      }
      if Alive(p) {
        LiveBlock(memory, own, Table(), Ring(), p);
        assert false;
      }
      index := LinearSearch(p);
    }

    /** A new last row, with both markers written. */
    method RecordAllocation(p: int, size: nat)
      requires Bounds() && numAllocations < maxAllocations && p in memory && 2 * MARKER_SIZE + size <= |memory[p]|
      modifies `memory, `numAllocations, `totalSize, `rows
      ensures Bounds() && Table() == old(Table()) + [Area(p, size, size)]
      ensures memory == old(memory)[p := EndStamp(Stamp(old(memory)[p], old(numAllocations)), size)]
      ensures totalSize == old(totalSize) + size
    {
      rows := rows[numAllocations := Area(p, size, size)];
      MarkStart(p, numAllocations);
      MarkEnd(p, size);
      numAllocations := numAllocations + 1;
      totalSize := totalSize + size;
    }

    method RemoveAllocation(i: nat)
      requires Bounds() && i < numAllocations
      requires rows[numAllocations - 1].area in memory && |memory[rows[numAllocations - 1].area]| >= MARKER_SIZE
      modifies `memory, `numAllocations, `totalSize, `rows
      ensures Bounds() && Table() == Without(old(Table()), i)
      ensures totalSize == old(totalSize) - old(rows[i].areaSize)
      ensures var last := old(rows[numAllocations - 1].area);
              memory == if i == old(numAllocations) - 1 then old(memory)
                        else old(memory)[last := Stamp(old(memory)[last], i)]
    {
      totalSize := totalSize - rows[i].areaSize;
      numAllocations := numAllocations - 1;
      if i == numAllocations {
        return;
      }
      rows := rows[i := rows[numAllocations]];
      MarkStart(rows[i].area, i);
    }

    /** Give a quarantined block back to the system, after checking that nobody wrote to it. */
    method DropFromFreeRing(k: nat) returns (intact: bool)
      requires Bounds() && k < freeRingLen
      requires var a := freeRing[k]; a.area in memory && 2 * MARKER_SIZE + a.areaSize <= |memory[a.area]|
      modifies `memory, `released
      ensures memory == old(memory) - {freeRing[k].area} && released == old(released) + [freeRing[k].area]
      ensures var a, raw := freeRing[k], old(memory)[freeRing[k].area];
              intact <==>
                && raw[..MARKER_SIZE] == StartMark(k)
                && raw[MARKER_SIZE + a.areaSize..2 * MARKER_SIZE + a.areaSize] == EndMark()
                && Poisoned(raw, a)
    {
      var a := freeRing[k];
      intact := CheckMarks(a, k);
      var clean := Untouched(memory[a.area], MARKER_SIZE, a.areaSize, FREE_AREA_PATTERN);
      intact := intact && clean;
      memory := memory - {a.area};
      released := released + [a.area];
    }

    method PutOnFreeRing(a: Area)
      requires Bounds() && a.area in memory && |memory[a.area]| >= MARKER_SIZE
      requires freeRingLen == FREE_RING_SIZE ==>
                 var d := freeRing[freeRingStart];
                 d.area in memory && d.area != a.area && 2 * MARKER_SIZE + d.areaSize <= |memory[d.area]|
      modifies `memory, `released, `freeRingLen, `freeRingStart, `freeRing
      ensures Bounds() && Ring() == RingAfterFree(old(Ring()), old(freeRingStart), a)
      ensures old(freeRingLen) < FREE_RING_SIZE ==>
                && memory == old(memory)[a.area := Stamp(old(memory)[a.area], old(freeRingLen))]
                && released == old(released) && freeRingStart == old(freeRingStart)
      ensures old(freeRingLen) == FREE_RING_SIZE ==>
                var d := old(freeRing[freeRingStart].area);
                && memory == (old(memory) - {d})[a.area := Stamp(old(memory)[a.area], old(freeRingStart))]
                && released == old(released) + [d] && freeRingStart == (old(freeRingStart) + 1) % FREE_RING_SIZE
    {
      hide Stamp, Poisoned, StartMark, EndMark;
      if freeRingLen < FREE_RING_SIZE {
        freeRing := freeRing[freeRingLen := a];
        MarkStart(a.area, freeRingLen);
        freeRingLen := freeRingLen + 1;
        return;
      }
      var _ := DropFromFreeRing(freeRingStart);
      freeRing := freeRing[freeRingStart := a];
      MarkStart(a.area, freeRingStart);
      freeRingStart := (freeRingStart + 1) % FREE_RING_SIZE;
    }

    /** free_area: overwrite, quarantine, take out of the table. */
    method FreeArea(i: nat, ghost t: seq<Area>, ghost r: seq<Area>, ghost m: Memory)
      requires Bounds() && t == Table() && r == Ring() && m == memory && i < |t|
      requires InTable(m, own, t, i) && InTable(m, own, t, |t| - 1)
      requires freeRingStart < |r| ==> InRing(m, own, r, freeRingStart)
      modifies `memory, `released, `freeRingLen, `freeRingStart, `numAllocations, `totalSize, `rows, `freeRing
      ensures Bounds() && Table() == Without(t, i)
      ensures Ring() == RingAfterFree(r, old(freeRingStart), t[i])
      ensures memory == MemAfterFree(m, t, r, old(freeRingStart), i)
      ensures totalSize == old(totalSize) - t[i].areaSize
      ensures released == if |r| < FREE_RING_SIZE then old(released) else old(released) + [r[old(freeRingStart)].area]
      ensures freeRingStart == if |r| < FREE_RING_SIZE then old(freeRingStart) else (old(freeRingStart) + 1) % FREE_RING_SIZE
    {
      hide Block, Poisoned, InTable, InRing, MemAfterFree, Without, RingAfterFree, Stamp, Overwrite;
      FreeSteps(memory, own, t, r, freeRingStart, i);
      var a := rows[i];
      var raw := Fill(memory[a.area], MARKER_SIZE, a.areaSize, FREE_AREA_PATTERN);
      memory := memory[a.area := raw];
      PutOnFreeRing(a);
      RemoveAllocation(i);
    }

    /** The block of row i leaves the table for the ring; every other live block stays as it is. */
    method FreeRow(i: nat)
      requires Valid() && i < numAllocations
      modifies this
      ensures Valid() && Table() == Without(old(Table()), i)
      ensures OthersKept(old(rows[i].area)) && !Alive(old(rows[i].area))
      ensures freed == old(freed) + [old(rows[i].area)] && leaksChecked == old(leaksChecked)
      ensures memory.Keys <= old(memory.Keys)
    {
      hide Sound, Kept, IsLive, InTable, InRing, MemAfterFree, OwnAfterFree, RingAfterFree, Without;
      ghost var m, o, t, r, start := memory, own, Table(), Ring(), freeRingStart;
      FreeKeepsSound(m, o, t, r, start, totalSize, freed, released, leaksChecked, i);
      freed := freed + [rows[i].area];
      FreeArea(i, t, r, m);
      own := OwnAfterFree(o, t, r, start, i);
    }

    /** A fresh block p of the system, with room for maxSize bytes, becomes the last row with an area of size
        bytes; every live block stays as it is. */
    method Adopt(p: int, raw: seq<Byte>, size: nat, maxSize: nat)
      requires Valid() && numAllocations < maxAllocations && p !in memory
      requires 0 < size <= maxSize && |raw| == maxSize + 2 * MARKER_SIZE
      modifies `memory, `numAllocations, `totalSize, `rows, `own
      ensures Valid() && Table() == old(Table()) + [Area(p, size, maxSize)] && OthersKept(p)
      ensures own == old(own)[p := Live(old(numAllocations))] && numAllocations == old(numAllocations) + 1
      ensures p in memory && |memory[p]| == |raw| && User(memory[p], size) == User(raw, size)
      ensures memory.Keys == old(memory.Keys) + {p}
    {
      hide Sound, Kept, IsLive, Stamp, EndStamp;
      ghost var m, o, t, r := memory, own, Table(), Ring();
      AdoptKeepsSound(m, o, t, r, freeRingStart, totalSize, freed, released, leaksChecked, Area(p, size, maxSize), raw);
      memory := memory[p := raw];
      RecordAllocation(p, size);
      rows := rows[numAllocations - 1 := rows[numAllocations - 1].(maxSize := maxSize)];
      own := own[p := Live(|t|)];
      assert memory == m[p := EndStamp(Stamp(raw, |t|), size)];
      assert Table() == t + [Area(p, size, maxSize)];
    }

    /** malloc: p is what the system returned and raw what its memory happened to hold. */
    method Malloc(size: nat, p: int, raw: seq<Byte>) returns (o: Outcome)
      requires Valid() && size > 0 && p !in memory && |raw| == size + 2 * MARKER_SIZE
      modifies `memory, `numAllocations, `totalSize, `rows, `own
      ensures o.Panic? <==> old(numAllocations) == maxAllocations
      ensures o.Pointer? ==>
                && Valid() && o.p == p && Alive(p) && OthersKept(p)
                && Table() == old(Table()) + [Area(p, size, size)]
                && p in memory && |memory[p]| == size + 32
                && User(memory[p], size) == Pattern(size, 0xcafebabe)
    {
      hide Sound, Kept;
      if numAllocations == maxAllocations {
        return Panic;
      }
      var filled := Fill(raw, MARKER_SIZE, size, NEW_AREA_PATTERN);
      Adopt(p, filled, size, size);
      o := Pointer(p);
    }

    /** Every client stays inside its area. */
    method ClientWrite(p: int, off: nat, bytes: seq<Byte>)
      requires Valid() && Alive(p) && off + |bytes| <= Table()[own[p].i].areaSize
      modifies `memory
      ensures Valid() && memory.Keys == old(memory.Keys)
      ensures forall q :: q in memory && q != p ==> memory[q] == old(memory)[q]
    {
      LiveBlock(memory, own, Table(), Ring(), p);
      var raw := Overwrite(memory[p], MARKER_SIZE + off, bytes);
      WriteKeepsBlock(memory[p], Table()[own[p].i], own[p].i, off, bytes);
      RewriteKeeps(memory, own, Table(), Ring(), own[p].i, Table()[own[p].i], raw);
      assert Table()[own[p].i := Table()[own[p].i]] == Table();
      memory := memory[p := raw];
    }

    /** free: NULL is ignored. */
    method Free(p: int) returns (o: Outcome)
      requires Valid() && (p == NULL || p in memory || slow || Suspicious(p))
      modifies this
      ensures o.Panic? <==> p != NULL && !old(Alive(p))
      ensures p == NULL ==> unchanged(this)
      ensures o.Pointer? && p != NULL ==> Valid() && OthersKept(p) && !Alive(p) && freed == old(freed) + [p]
    {
      hide Sound, Kept;
      if p == NULL {
        return Pointer(p);
      }
      var index, _ := FindArea(p);
      if index < 0 {
        return Panic;
      }
      FreeRow(index);
      o := Pointer(p);
    }

    /** Grow or shrink inside the block: only the end marker moves. */
    method Resize(i: nat, size: nat)
      requires Valid() && i < numAllocations && 0 < size <= rows[i].maxSize
      modifies `memory, `totalSize, `rows
      ensures Valid() && Table() == old(Table())[i := old(rows[i]).(areaSize := size)] && OthersKept(rows[i].area)
      ensures rows[i].area in memory && rows[i].area in old(memory)
      ensures Prefixes(old(memory)[rows[i].area], memory[rows[i].area], old(rows[i].areaSize), size)
    {
      hide Sound, Kept, IsLive, EndStamp, Prefixes;
      ghost var m, t := memory, Table();
      ResizeKeepsSound(m, own, t, Ring(), freeRingStart, totalSize, freed, released, leaksChecked, i, size);
      totalSize := totalSize + (size - rows[i].areaSize);
      rows := rows[i := rows[i].(areaSize := size)];
      MarkEnd(rows[i].area, size);
      assert Table() == t[i := t[i].(areaSize := size)];
    }

    /** The block is too small: copy to a new one of a rounded size, and free the old one. newP is what the
        system's malloc returns, and junk(n) what n bytes of new memory hold. */
    method Move(i: nat, size: nat, newP: int, junk: nat -> seq<Byte>)
      requires Valid() && i < numAllocations < maxAllocations && rows[i].maxSize < size
      requires size + 2 * MARKER_SIZE <= 0xffff_ffff && newP !in memory && forall n: nat :: |junk(n)| == n
      modifies this
      ensures Valid() && OthersKept(old(rows[i].area)) && !Alive(old(rows[i].area))
      ensures Alive(newP) && Table()[own[newP].i].areaSize == size
      ensures newP in memory && old(rows[i].area) in old(memory)
      ensures Prefixes(old(memory)[old(rows[i].area)], memory[newP], old(rows[i].areaSize), size)
      ensures Extended(memory[newP], old(rows[i].areaSize), size)
    {
      hide Sound, Kept, Prefixes, Extended, Pattern, Without, MemAfterFree;
      ghost var m, own0, t, r := memory, own, Table(), Ring();
      RowFacts(m, own, t, r, freeRingStart, totalSize, freed, released, leaksChecked, i);
      var p, oldSize := rows[i].area, rows[i].areaSize;
      var newSize := RoundPow2(size + 2 * MARKER_SIZE);
      var raw := junk(newSize);
      raw := Overwrite(raw, MARKER_SIZE, memory[p][MARKER_SIZE..MARKER_SIZE + oldSize]);
      ghost var copied := raw;
      raw := Fill(raw, MARKER_SIZE + oldSize, size - oldSize, NEW_AREA_PATTERN);
      CopiedBytes(m[p], copied, raw, oldSize, size);
      FilledExtends(copied, raw, oldSize, size);
      Adopt(newP, raw, size, newSize - 2 * MARKER_SIZE);
      ghost var m1, own1, t1 := memory, own, Table();
      assert t1[i] == t[i] && IsLive(own1, t1, newP) && t1[own1[newP].i].areaSize == size;
      FreeRow(i);
      MovedBytes(m[p], raw, m1, own1, t1, memory, own, Table(), newP, oldSize, size);
      KeptTwice(m, own0, t, m1, own1, t1, memory, own, Table(), p, newP);
    }

    /** realloc: NULL asks for a new block. Otherwise the first min(old, new) bytes survive, and so does every other
        block. A block that has to move must not need more than 2^32 - 1 bytes. */
    method Realloc(p: int, size: nat, newP: int, junk: nat -> seq<Byte>) returns (o: Outcome)
      requires Valid() && size > 0 && (p == NULL || p in memory || slow || Suspicious(p))
      requires p != NULL && Alive(p) && size > Table()[own[p].i].maxSize ==> size + 2 * MARKER_SIZE <= 0xffff_ffff
      requires newP !in memory && forall n: nat :: |junk(n)| == n
      modifies this
      ensures p == NULL ==> o == if old(numAllocations) == maxAllocations then Panic else Pointer(newP)
      ensures p == NULL && o.Pointer? ==>
                && Valid() && Table() == old(Table()) + [Area(newP, size, size)] && OthersKept(newP)
                && newP in memory && |memory[newP]| == size + 32
                && User(memory[newP], size) == Pattern(size, 0xcafebabe)
      ensures p != NULL && old(Alive(p)) && size <= old(Table()[own[p].i].maxSize) ==> o == Pointer(p)
      ensures p != NULL && old(Alive(p)) && size > old(Table()[own[p].i].maxSize) ==>
                o == if old(numAllocations) == maxAllocations then Panic else Pointer(newP)
      ensures p != NULL && !old(Alive(p)) ==> o == Panic
      ensures p != NULL && o.Pointer? ==>
                && Valid() && Alive(o.p) && Table()[own[o.p].i].areaSize == size && OthersKept(p)
                && (o.p != p ==> !Alive(p))
                && o.p in memory && p in old(memory)
                && Prefixes(old(memory)[p], memory[o.p], old(Table()[own[p].i].areaSize), size)
                && (o.p != p ==> Extended(memory[o.p], old(Table()[own[p].i].areaSize), size))
    {
      hide Sound, Kept, Prefixes, Extended, Pattern, IsLive;
      if p == NULL {
        o := Malloc(size, newP, junk(size + 2 * MARKER_SIZE));
      } else {
        o := ReallocArea(p, size, newP, junk);
      }
    }

    method ReallocArea(p: int, size: nat, newP: int, junk: nat -> seq<Byte>) returns (o: Outcome)
      requires Valid() && size > 0 && (p in memory || slow || Suspicious(p))
      requires Alive(p) && size > Table()[own[p].i].maxSize ==> size + 2 * MARKER_SIZE <= 0xffff_ffff
      requires newP !in memory && forall n: nat :: |junk(n)| == n
      modifies this
      ensures old(Alive(p)) && size <= old(Table()[own[p].i].maxSize) ==> o == Pointer(p)
      ensures old(Alive(p)) && size > old(Table()[own[p].i].maxSize) ==>
                o == if old(numAllocations) == maxAllocations then Panic else Pointer(newP)
      ensures !old(Alive(p)) ==> o == Panic
      ensures o.Pointer? ==>
                && Valid() && Alive(o.p) && Table()[own[o.p].i].areaSize == size && OthersKept(p)
                && (o.p != p ==> !Alive(p))
                && o.p in memory && p in old(memory)
                && Prefixes(old(memory)[p], memory[o.p], old(Table()[own[p].i].areaSize), size)
                && (o.p != p ==> Extended(memory[o.p], old(Table()[own[p].i].areaSize), size))
    {
      hide Sound, Kept, Prefixes, Extended;
      var index, _ := FindArea(p);
      if index < 0 {
        return Panic;
      }
      ghost var m, own0, t := memory, own, Table();
      RowFacts(m, own, t, Ring(), freeRingStart, totalSize, freed, released, leaksChecked, index);
      if size == rows[index].areaSize {
        return Pointer(p);
      }
      if size <= rows[index].maxSize {
        Resize(index, size);
        return Pointer(p);
      }
      if numAllocations == maxAllocations {
        return Panic;
      }
      Move(index, size, newP, junk);
      o := Pointer(newP);
    }

    /** Empty the ring, one block after the other; none has been tampered with. */
    method ReleaseRing() returns (intact: bool)
      requires Valid()
      modifies `memory, `released
      ensures memory == Undropped(old(memory), Ring(), freeRingLen) && intact
      ensures released == old(released) + Pointers(Ring(), freeRingLen)
    {
      hide Inv, Undropped, Poisoned;
      ghost var m, r := memory, Ring();
      UndroppedNone(m, r);
      intact := true;
      for k := 0 to freeRingLen
        invariant memory == Undropped(m, r, k) && intact && released == old(released) + Pointers(r, k)
      {
        DropFine(m, own, Table(), r, k);
        var ok := DropFromFreeRing(k);
        intact := intact && ok;
      }
    }

    /** gw_check_check_leaks: the sum over the table is the running total, so its assertion holds. */
    method CheckLeaks() returns (calculated: int, intact: bool)
      requires Valid()
      modifies this
      ensures Valid() && Table() == old(Table()) && Ring() == [] && leaksChecked
      ensures calculated == totalSize == old(totalSize) && intact
      ensures forall i :: 0 <= i < numAllocations ==>
                rows[i].area in memory && rows[i].area in old(memory) && memory[rows[i].area] == old(memory)[rows[i].area]
    {
      hide Inv, Fifo;
      EmptyRingSound(memory, own, Table(), Ring(), freeRingStart, totalSize, freed, released, leaksChecked);
      ghost var r := Ring();
      intact := ReleaseRing();
      own := own - (set k | 0 <= k < |r| :: r[k].area);
      freeRingLen, leaksChecked := 0, true;
      calculated := 0;
      for index := 0 to numAllocations
        invariant calculated == Total(rows[..index])
      {
        calculated := calculated + rows[index].areaSize;
        assert rows[..index + 1][..index] == rows[..index];
      }
      assert Ring() == [] && Table() == rows[..numAllocations];
    }
  }
}

