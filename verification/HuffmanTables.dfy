/** read_huffman_tables of the 4XM decoder: read byte frequencies, merge, read code words off
    the parent links. Its contracts are stated against the forest of HuffmanForest. */
module HuffmanTables {
  import opened Sums
  import opened HuffmanForest
  import opened HuffmanOptimality
  import opened HuffmanCodes
  import opened Options

  // Frequency ranges

  /** The transmitted ranges from position p on: each range start..end is followed by its bytes,
      a zero start byte ends the list, and later ranges overwrite earlier ones. */
  ghost function ReadRanges(buf: seq<nat>, size: nat, p: nat, start: nat, end: nat, freq: seq<nat>)
    : (r: Option<(nat, seq<nat>)>)
    requires |buf| >= size + 2 && p <= size + 2 && |freq| == 256 && start < 256 && end < 256
    requires forall i :: 0 <= i < |buf| ==> buf[i] < 256
    requires forall i :: 0 <= i < 256 ==> freq[i] < 256
    ensures r.Some? ==> p < r.value.0 <= size && |r.value.1| == 256 && forall i :: 0 <= i < 256 ==> r.value.1[i] < 256
    decreases size + 2 - p
  {
    var n := if end >= start then end - start + 1 else 0;
    if size - p < n + 1 then None
    else
      var freq' := freq[..start] + buf[p..p + n] + freq[start + n..];
      var q := p + n;
      if buf[q] == 0 then Some((q + 1, freq'))
      else ReadRanges(buf, size, q + 2, buf[q], buf[q + 1], freq')
  }

  ghost predicate Bytes(buf: seq<nat>) {
    forall i :: 0 <= i < |buf| ==> buf[i] < 256
  }

  ghost function NoFrequencies(): (z: seq<nat>)
    ensures |z| == 256 && forall i :: 0 <= i < 256 ==> z[i] == 0
  {
    seq(256, i => 0)
  }

  /** The whole table with the end mark, and the position after it rounded up to a word. */
  ghost function ReadTable(buf: seq<nat>, size: nat): (r: Option<(nat, seq<nat>)>)
    requires |buf| >= size + 2 && Bytes(buf)
    ensures r.Some? ==> r.value.0 <= size && r.value.0 % 4 == 0 && Table(r.value.1)
  {
    match ReadRanges(buf, size, 2, buf[0], buf[1], NoFrequencies())
    case None => None
    case Some((p, freq)) =>
      var q := (p + 3) / 4 * 4;
      if q > size then None else Some((q, freq + [1]))
  }

  ghost function Pad(n: nat): (z: seq<nat>)
    ensures |z| == n && Bytes(z)
  {
    seq(n, i => 0)
  }

  // What a transmission means

  /** Symbols start..end with their bytes; a range that ends before it starts has none. */
  datatype Range = Range(start: nat, end: nat, bytes: seq<nat>)

  ghost predicate IsRange(r: Range) {
    r.start < 256 && r.end < 256 && Bytes(r.bytes) && |r.bytes| == if r.start <= r.end then r.end - r.start + 1 else 0
  }

  /** At least one range; only the first may start at symbol 0. */
  ghost predicate AreRanges(rs: seq<Range>) {
    && rs != [] && (forall i :: 0 <= i < |rs| ==> IsRange(rs[i]))
    && forall i :: 1 <= i < |rs| ==> rs[i].start != 0
  }

  /** Start, end and bytes of each range, then a zero. */
  ghost function Spell(rs: seq<Range>): (r: seq<nat>) {
    if rs == [] then [0] else [rs[0].start, rs[0].end] + rs[0].bytes + Spell(rs[1..])
  }

  ghost predicate Covers(r: Range, s: nat) {
    r.start <= s <= r.end
  }

  /** The last range that covers symbol s gives its byte. */
  ghost predicate LastByte(rs: seq<Range>, s: nat, i: nat, b: nat) {
    && i < |rs| && IsRange(rs[i]) && Covers(rs[i], s) && b == rs[i].bytes[s - rs[i].start]
    && forall j :: i < j < |rs| ==> !Covers(rs[j], s)
  }

  /** What transmission rs makes of freq: each symbol gets its last byte, or keeps its own. */
  ghost predicate Overlays(rs: seq<Range>, freq: seq<nat>, freq': seq<nat>) {
    && |freq| == |freq'| == 256
    && forall s: nat :: s < 256 ==>
         if exists i: nat :: i < |rs| && Covers(rs[i], s) then exists i: nat :: LastByte(rs, s, i, freq'[s])
         else freq'[s] == freq[s]
  }

  lemma {:induction false} OverlayFirst(rs: seq<Range>, freq: seq<nat>, mid: seq<nat>, freq': seq<nat>)
    requires AreRanges(rs) && |freq| == 256
    requires mid == freq[..rs[0].start] + rs[0].bytes + freq[rs[0].start + |rs[0].bytes|..]
    requires Overlays(rs[1..], mid, freq')
    ensures Overlays(rs, freq, freq')
  {
    var r, rest := rs[0], rs[1..];
    forall s: nat | s < 256
      ensures if exists i: nat :: i < |rs| && Covers(rs[i], s) then exists i: nat :: LastByte(rs, s, i, freq'[s])
              else freq'[s] == freq[s]
    {
      if i: nat :| i < |rest| && Covers(rest[i], s) {
        var k: nat :| LastByte(rest, s, k, freq'[s]);
        assert rs[i + 1] == rest[i] && rs[k + 1] == rest[k];
        assert forall j :: k + 1 < j < |rs| ==> rs[j] == rest[j - 1];
        assert LastByte(rs, s, k + 1, freq'[s]);
      } else {
        assert forall j :: 1 <= j < |rs| ==> rs[j] == rest[j - 1];
        assert freq'[s] == mid[s];
        if Covers(r, s) {
          assert LastByte(rs, s, 0, freq'[s]);
        }
      }
    }
  }

  lemma {:induction false} SpellFirst(rs: seq<Range>)
    requires AreRanges(rs)
    ensures var n := |rs[0].bytes|;
            && |Spell(rs)| >= 3 + n && Spell(rs)[..2] == [rs[0].start, rs[0].end]
            && Spell(rs)[2..2 + n] == rs[0].bytes && Spell(rs)[2 + n..] == Spell(rs[1..])
            && (Spell(rs)[2 + n] == 0 <==> |rs| == 1)
            && (|rs| > 1 ==> AreRanges(rs[1..]))
  {
  }

  ghost predicate SpeltAt(buf: seq<nat>, at: nat, rs: seq<Range>) {
    at + |Spell(rs)| <= |buf| && buf[at..at + |Spell(rs)|] == Spell(rs)
  }

  /** What the buffer holds where a range is spelt, and where the next one starts. */
  lemma {:induction false} SpeltFirst(buf: seq<nat>, at: nat, rs: seq<Range>)
    requires AreRanges(rs) && SpeltAt(buf, at, rs)
    ensures var p := at + 2 + |rs[0].bytes|;
            && p < |buf| && buf[at] == rs[0].start && buf[at + 1] == rs[0].end && buf[at + 2..p] == rs[0].bytes
            && at + |Spell(rs)| == p + |Spell(rs[1..])| && SpeltAt(buf, p, rs[1..])
            && (buf[p] == 0 <==> |rs| == 1) && (|rs| == 1 ==> |Spell(rs[1..])| == 1)
  {
    hide Spell;
    SpellFirst(rs);
    var n, m := |rs[0].bytes|, |Spell(rs)|;
    PartOfPart(buf, at, m, 0, 2);
    PartOfPart(buf, at, m, 2, 2 + n);
    PartOfPart(buf, at, m, 2 + n, m);
    assert buf[at] == buf[at..at + 2][0] && buf[at + 1] == buf[at..at + 2][1];
    assert buf[at + 2 + n] == buf[at + 2 + n..at + m][0];
    if |rs| == 1 {
      assert rs[1..] == [];
      SpellNone();
    }
  }

  lemma {:induction false} PartOfPart(buf: seq<nat>, at: nat, m: nat, i: nat, j: nat)
    requires at + m <= |buf| && i <= j <= m
    ensures buf[at..at + m][i..j] == buf[at + i..at + j]
  {
    var a, b := buf[at..at + m][i..j], buf[at + i..at + j];
    assert |a| == |b| == j - i;
    forall k | 0 <= k < j - i ensures a[k] == b[k] {
      assert a[k] == buf[at..at + m][i + k];
      assert b[k] == buf[at + i + k];
    }
  }

  lemma {:induction false} SpellNone()
    ensures Spell([]) == [0]
  {
  }

  /** One range read. */
  lemma {:induction false} ReadOne(buf: seq<nat>, size: nat, at: nat, r: Range, freq: seq<nat>, mid: seq<nat>)
    requires |buf| >= size + 2 && Bytes(buf) && IsRange(r) && Bytes(freq) && |freq| == 256 && at <= size
    requires buf[at] == r.start && buf[at + 1] == r.end
    requires at + 2 + |r.bytes| < size ==> buf[at + 2..at + 2 + |r.bytes|] == r.bytes
    requires mid == freq[..r.start] + r.bytes + freq[r.start + |r.bytes|..]
    ensures |mid| == 256 && Bytes(mid)
    ensures var p := at + 2 + |r.bytes|;
            ReadRanges(buf, size, at + 2, buf[at], buf[at + 1], freq)
            == if p >= size then None
               else if buf[p] == 0 then Some((p + 1, mid))
               else ReadRanges(buf, size, p + 2, buf[p], buf[p + 1], mid)
  {
  }

  /** Reading what Spell has written, from any point of the buffer on. */
  lemma {:induction false} ReadSpelling(buf: seq<nat>, size: nat, at: nat, rs: seq<Range>, freq: seq<nat>)
    requires |buf| >= size + 2 && Bytes(buf) && AreRanges(rs) && Bytes(freq) && |freq| == 256
    requires SpeltAt(buf, at, rs) && at + |Spell(rs)| <= size
    ensures |Spell(rs)| >= 3
    ensures var r := ReadRanges(buf, size, at + 2, buf[at], buf[at + 1], freq);
            r.Some? && r.value.0 == at + |Spell(rs)| && Overlays(rs, freq, r.value.1)
    decreases |rs|
  {
    hide ReadRanges, Spell, SpeltAt, Overlays;
    SpellFirst(rs);
    SpeltFirst(buf, at, rs);
    var p := at + 2 + |rs[0].bytes|;
    var mid := freq[..rs[0].start] + rs[0].bytes + freq[rs[0].start + |rs[0].bytes|..];
    ReadOne(buf, size, at, rs[0], freq, mid);
    if |rs| == 1 {
      NothingOverlays(rs[1..], mid);
      OverlayFirst(rs, freq, mid, mid);
    } else {
      ReadSpelling(buf, size, p, rs[1..], mid);
      OverlayFirst(rs, freq, mid, ReadRanges(buf, size, p + 2, buf[p], buf[p + 1], mid).value.1);
    }
  }

  lemma {:induction false} NothingOverlays(rs: seq<Range>, freq: seq<nat>)
    requires rs == [] && |freq| == 256
    ensures Overlays(rs, freq, freq)
  {
  }

  /** Whatever is accepted spells some ranges. */
  lemma {:induction false} AcceptedIsSpelling(buf: seq<nat>, size: nat, at: nat, freq: seq<nat>) returns (rs: seq<Range>)
    requires |buf| >= size + 2 && Bytes(buf) && Bytes(freq) && |freq| == 256 && at <= size
    requires ReadRanges(buf, size, at + 2, buf[at], buf[at + 1], freq).Some?
    ensures AreRanges(rs) && rs[0].start == buf[at] && SpeltAt(buf, at, rs)
    ensures at + |Spell(rs)| == ReadRanges(buf, size, at + 2, buf[at], buf[at + 1], freq).value.0
    decreases size - at
  {
    hide ReadRanges, Spell, SpeltAt;
    var start, end := buf[at], buf[at + 1];
    var n := if end >= start then end - start + 1 else 0;
    var p := at + 2 + n;
    var r := Range(start, end, if p <= |buf| then buf[at + 2..p] else seq(n, i => 0));
    var mid := freq[..start] + r.bytes + freq[start + n..];
    ReadOne(buf, size, at, r, freq, mid);
    if buf[p] == 0 {
      rs := [r];
      SpellNone();
      SpeltCons(buf, at, r, []);
      assert [r] + [] == [r];
    } else {
      var rest := AcceptedIsSpelling(buf, size, p, mid);
      rs := [r] + rest;
      SpeltCons(buf, at, r, rest);
    }
  }

  lemma {:induction false} SpeltCons(buf: seq<nat>, at: nat, r: Range, rest: seq<Range>)
    requires var p := at + 2 + |r.bytes|;
             && p < |buf| && buf[at] == r.start && buf[at + 1] == r.end && buf[at + 2..p] == r.bytes
             && if rest == [] then buf[p] == 0 else SpeltAt(buf, p, rest)
    ensures SpeltAt(buf, at, [r] + rest) && |Spell([r] + rest)| == 2 + |r.bytes| + |Spell(rest)|
  {
    var p := at + 2 + |r.bytes|;
    SpellCons(r, rest);
    if rest == [] {
      SpellNone();
      assert buf[p..p + 1] == [buf[p]];
    }
    hide Spell;
    assert buf[at..at + 2] == [buf[at], buf[at + 1]];
    Concatenated(buf, at, r, p, Spell(rest));
  }

  lemma {:induction false} SpellCons(r: Range, rest: seq<Range>)
    ensures Spell([r] + rest) == [r.start, r.end] + r.bytes + Spell(rest)
  {
    assert ([r] + rest)[1..] == rest;
  }

  lemma {:induction false} Concatenated(buf: seq<nat>, at: nat, r: Range, p: nat, w: seq<nat>)
    requires p == at + 2 + |r.bytes| && p + |w| <= |buf|
    requires buf[at..at + 2] == [r.start, r.end] && buf[at + 2..p] == r.bytes && buf[p..p + |w|] == w
    ensures buf[at..p + |w|] == [r.start, r.end] + r.bytes + w
  {
    assert buf[at..p + |w|] == buf[at..at + 2] + buf[at + 2..p] + buf[p..p + |w|];
  }

  /** The table that ranges stand for: last bytes, 0 for symbols outside all ranges, end mark 1. */
  ghost predicate TableOf(rs: seq<Range>, table: seq<nat>) {
    && Table(table) && table[256] == 1
    && forall s: nat :: s < 256 ==>
         if exists i: nat :: i < |rs| && Covers(rs[i], s) then exists i: nat :: LastByte(rs, s, i, table[s])
         else table[s] == 0
  }

  /** Any list of ranges is read back: the table is theirs, and the position is the next multiple of
      four. It is refused only if that lies beyond the buffer. */
  lemma {:induction false} RangesRoundTrip(buf: seq<nat>, size: nat, rs: seq<Range>)
    requires |buf| >= size + 2 && Bytes(buf) && AreRanges(rs) && Spell(rs) <= buf && |Spell(rs)| <= size
    ensures ReadTable(buf, size).Some? <==> exists q :: q % 4 == 0 && |Spell(rs)| <= q <= size
    ensures ReadTable(buf, size).Some? ==>
              var (q, table) := ReadTable(buf, size).value;
              q % 4 == 0 && |Spell(rs)| <= q < |Spell(rs)| + 4 && TableOf(rs, table)
  {
    hide ReadRanges;
    assert SpeltAt(buf, 0, rs);
    ReadSpelling(buf, size, 0, rs, NoFrequencies());
    var (p, freq) := ReadRanges(buf, size, 2, buf[0], buf[1], NoFrequencies()).value;
    assert p == |Spell(rs)|;
    var q := (p + 3) / 4 * 4;
    assert q % 4 == 0 && p <= q < p + 4;
    assert forall q' :: q' % 4 == 0 && p <= q' ==> q <= q';
    if q <= size {
      OverlayIsTable(rs, freq);
    }
  }

  lemma {:induction false} OverlayIsTable(rs: seq<Range>, freq: seq<nat>)
    requires Overlays(rs, NoFrequencies(), freq) && Bytes(freq)
    ensures TableOf(rs, freq + [1])
  {
  }

  /** The reader succeeds exactly on the spellings of ranges that leave room for the alignment. */
  lemma {:induction false} AcceptedIff(buf: seq<nat>, size: nat)
    requires |buf| >= size + 2 && Bytes(buf)
    ensures ReadTable(buf, size).Some? <==>
            exists rs :: AreRanges(rs) && Spell(rs) <= buf && (|Spell(rs)| + 3) / 4 * 4 <= size
  {
    hide ReadRanges, Spell, AreRanges;
    if ReadTable(buf, size).Some? {
      var rs := AcceptedIsSpelling(buf, size, 0, NoFrequencies());
      assert SpeltAt(buf, 0, rs) && Spell(rs) <= buf;
    }
    if rs :| AreRanges(rs) && Spell(rs) <= buf && (|Spell(rs)| + 3) / 4 * 4 <= size {
      RoundUp(|Spell(rs)|);
      RangesRoundTrip(buf, size, rs);
    }
  }

  lemma {:induction false} RoundUp(n: nat)
    ensures ((n + 3) / 4 * 4) % 4 == 0 && n <= (n + 3) / 4 * 4
  {
  }

  /** One range 0..255 transmits any table, so every table the merge loop accepts can occur. */
  lemma {:induction false} EveryTableOccurs(table: seq<nat>)
    requires Table(table)
    ensures var buf := [0, 255] + table[..256] + Pad(4);
            Bytes(buf) && ReadTable(buf, 260) == Some((260, table))
  {
    var buf := [0, 255] + table[..256] + Pad(4);
    var z := NoFrequencies();
    assert buf[2..258] == table[..256];
    assert z[..0] + buf[2..258] + z[256..] == table[..256];
    assert buf[258] == 0;
    assert table[..256] + [1] == table;
  }

  /** One range: frequency[start..end] takes the next bytes. */
  method ReadRange(buf: seq<nat>, p: nat, start: nat, end: nat, frequency: array<nat>) returns (ptr: nat)
    requires frequency.Length == NODES && start < 256 && end < 256
    requires p + (if end >= start then end - start + 1 else 0) <= |buf|
    modifies frequency
    ensures ptr == p + if end >= start then end - start + 1 else 0
    ensures frequency[..256] == old(frequency[..256])[..start] + buf[p..ptr] + old(frequency[..256])[start + (ptr - p)..]
    ensures frequency[256..] == old(frequency[256..])
  {
    ptr := p;
    var i := start;
    while i <= end
      invariant start <= i <= start + (if end >= start then end - start + 1 else 0)
      invariant ptr == p + (i - start)
      invariant forall k :: start <= k < i ==> frequency[k] == buf[p + k - start]
      invariant forall k :: 0 <= k < start || i <= k < NODES ==> frequency[k] == old(frequency[k])
      decreases end + 1 - i
    {
      frequency[i] := buf[ptr];
      ptr := ptr + 1;
      i := i + 1;
    }
  }

  /** Rounds the read position up to the next multiple of four. */
  method AlignWord(p: nat) returns (ptr: nat)
    ensures ptr == (p + 3) / 4 * 4
  {
    ptr := p;
    while ptr % 4 != 0
      invariant p <= ptr <= (p + 3) / 4 * 4
      decreases (p + 3) / 4 * 4 - ptr
    {
      ptr := ptr + 1;
    }
  }

  /** The range loop. */
  method ReadAllRanges(buf: seq<nat>, size: nat, frequency: array<nat>) returns (ok: bool, ptr: nat)
    requires |buf| >= size + 2 && Bytes(buf)
    requires frequency.Length == NODES && frequency[..256] == NoFrequencies()
    modifies frequency
    ensures var r := ReadRanges(buf, size, 2, buf[0], buf[1], NoFrequencies());
            ok == r.Some? && (ok ==> r.value == (ptr, frequency[..256]))
  {
    var start, end := buf[0], buf[1];
    ptr := 2;
    while true
      invariant 2 <= ptr <= size + 2 && start < 256 && end < 256
      invariant Bytes(frequency[..256])
      invariant ReadRanges(buf, size, 2, buf[0], buf[1], NoFrequencies())
             == ReadRanges(buf, size, ptr, start, end, frequency[..256])
      decreases size + 2 - ptr
    {
      if size - ptr < (if end >= start then end - start + 1 else 0) + 1 {
        return false, ptr;
      }
      ptr := ReadRange(buf, ptr, start, end, frequency);
      start := buf[ptr];
      ptr := ptr + 1;
      if start == 0 {
        return true, ptr;
      }
      end := buf[ptr];
      ptr := ptr + 1;
    }
  }

  /** Reads the ranges into frequency[0..256], adds the end mark and skips to a word boundary. */
  method ReadFrequencies(buf: seq<nat>, size: nat, frequency: array<nat>) returns (ok: bool, ptr: nat)
    requires |buf| >= size + 2 && Bytes(buf)
    requires frequency.Length == NODES && forall i :: 0 <= i < NODES ==> frequency[i] == 0
    modifies frequency
    ensures ok <==> ReadTable(buf, size).Some?
    ensures ok ==> ReadTable(buf, size).value == (ptr, frequency[..SYMBOLS])
  {
    assert frequency[..256] == NoFrequencies();
    ok, ptr := ReadAllRanges(buf, size, frequency);
    if ok {
      ghost var freq := frequency[..256];
      frequency[256] := 1;
      assert frequency[..SYMBOLS] == freq + [1];
      ptr := AlignWord(ptr);
      ok := ptr <= size;
    }
  }

  // Merging

  /** The scan over live nodes below j for the two smallest frequencies. */
  method ScanSmallest(frequency: array<nat>, j: nat) returns (min0: nat, min1: nat, s0: nat, s1: nat)
    requires j <= frequency.Length
    requires forall i :: 0 <= i < j ==> frequency[i] < CEILING
    ensures min1 == CEILING <==> !HasTwo(frequency[..j])
    ensures min1 != CEILING ==>
              && TwoSmallest(frequency[..j], s0, s1)
              && min0 == frequency[s0] && min1 == frequency[s1]
  {
    ghost var fr := frequency[..j];
    min0, min1, s0, s1 := CEILING, CEILING, 0, 0;
    var i := 0;
    while i < j
      invariant 0 <= i <= j
      invariant min0 == CEILING ==> min1 == CEILING && forall k :: 0 <= k < i ==> fr[k] == 0
      invariant min0 != CEILING ==> s0 < i && min0 == fr[s0] != 0
      invariant min0 != CEILING && min1 == CEILING ==> forall k :: 0 <= k < i && k != s0 ==> fr[k] == 0
      invariant min1 != CEILING ==> s1 < i && s0 != s1 && min1 == fr[s1] != 0 && Before(fr, s0, s1)
      invariant min1 != CEILING ==>
                  forall k :: 0 <= k < i && k != s0 && k != s1 && fr[k] != 0 ==> Before(fr, s1, k)
    {
      assert frequency[i] == fr[i];
      if frequency[i] != 0 && frequency[i] < min1 {
        if frequency[i] < min0 {
          min1, s1 := min0, s0;
          min0, s0 := frequency[i], i;
        } else {
          min1, s1 := frequency[i], i;
        }
      }
      i := i + 1;
    }
    if min1 != CEILING {
      assert TwoSmallest(fr, s0, s1);
      assert s0 < s1 || s1 < s0;
    }
  }

  lemma {:induction false} LinkedStepAt(f: Forest, f': Forest, table: seq<nat>, up: seq<int>, flag: seq<nat>, a: nat, b: nat, i: nat)
    requires Inv(f, table) && |f.freq| < NODES && Linked(f, table, up, flag) && i < NODES
    requires Live(f.freq, a) && Live(f.freq, b) && a != b
    requires var j := |f.freq|;
             f'.freq == f.freq[a := 0][b := 0] + [f.freq[a] + f.freq[b]]
             && f'.tree == f.tree + [Node(j, f.tree[a], f.tree[b])]
    ensures var j := |f.freq|; LinkedAt(f', table, up[a := j][b := j], flag[a := 0][b := 1], i)
  {
    assert LinkedAt(f, table, up, flag, i);
    assert Shaped(f, a) && Shaped(f, b) && SoundAt(f, table, a) && SoundAt(f, table, b);
    if i < |f.tree| {
      assert Shaped(f, i);
    }
  }

  lemma {:induction false} LinkedStep(f: Forest, table: seq<nat>, up: seq<int>, flag: seq<nat>)
    requires Inv(f, table) && |f.freq| < NODES && HasTwo(f.freq) && Linked(f, table, up, flag)
    ensures var (a, b) := Smallest(f.freq);
            var j := |f.freq|; Linked(Step(f), table, up[a := j][b := j], flag[a := 0][b := 1])
  {
    var (a, b) := Smallest(f.freq);
    var j := |f.freq|;
    assert Live(f.freq, a) && Live(f.freq, b);
    var up', flag' := up[a := j][b := j], flag[a := 0][b := 1];
    forall i: nat | i < NODES ensures LinkedAt(Step(f), table, up', flag', i) {
      LinkedStepAt(f, Step(f), table, up, flag, a, b, i);
    }
  }

  /** What the arrays of the merge loop hold once its forest is f. */
  ghost predicate Tracks(f: Forest, table: seq<nat>, freq: seq<nat>, up: seq<int>, flag: seq<nat>) {
    && Inv(f, table) && Total(f.freq) == Total(table)
    && |freq| == NODES && freq[..|f.freq|] == f.freq
    && Linked(f, table, up, flag)
  }

  lemma {:induction false} TracksBelowCeiling(f: Forest, table: seq<nat>, freq: seq<nat>, up: seq<int>, flag: seq<nat>)
    requires Table(table) && Tracks(f, table, freq, up, flag)
    ensures forall i :: 0 <= i < |f.freq| ==> freq[i] < CEILING
  {
    forall i | 0 <= i < |f.freq| ensures freq[i] < CEILING {
      assert freq[i] == f.freq[i];
      if freq[i] != 0 {
        HeightBound(f, table, i);
      }
    }
  }

  lemma {:induction false} ArraysStep(f: Forest, freq: seq<nat>)
    requires |f.freq| == |f.tree| < NODES == |freq| && freq[..|f.freq|] == f.freq && HasTwo(f.freq)
    ensures var (a, b) := Smallest(f.freq);
            var j := |f.freq|;
            freq[j := freq[a] + freq[b]][a := 0][b := 0][..j + 1] == Step(f).freq
  {
    var (a, b) := Smallest(f.freq);
    assert freq[a] == f.freq[a] && freq[b] == f.freq[b];
  }

  lemma {:induction false} TracksStep(f: Forest, table: seq<nat>, freq: seq<nat>, up: seq<int>, flag: seq<nat>,
                   a: nat, b: nat, sum: nat)
    requires Tracks(f, table, freq, up, flag) && RunsTo(f, table)
    requires |f.freq| < NODES && TwoSmallest(f.freq, a, b)
    requires sum == f.freq[a] + f.freq[b]
    ensures HasTwo(f.freq) && a < |f.freq| && b < |f.freq| && RunsTo(Step(f), table)
    ensures var j := |f.freq|;
            freq[j := sum][a := 0][b := 0][..j + 1] == Step(f).freq
    ensures var j := |f.freq|;
            Tracks(Step(f), table, freq[j := sum][a := 0][b := 0],
                   up[a := j][b := j], flag[a := 0][b := 1])
  {
    hide SoundAt, Shaped, Apart, Owned, Separates, LinkedAt, Rising, Total, LiveCount;
    assert a < b || b < a;
    TwoSmallestUnique(f.freq, a, b, Smallest(f.freq).0, Smallest(f.freq).1);
    assert (a, b) == Smallest(f.freq);
    StepInv(f, table);
    StepCounts(f);
    LinkedStep(f, table, up, flag);
    ArraysStep(f, freq);
  }

  ghost predicate RunsTo(f: Forest, table: seq<nat>) {
    |f.freq| == |f.tree| <= NODES && |table| <= NODES && Run(f) == Run(Start(table))
  }

  lemma {:induction false} TracksStart(table: seq<nat>, freq: seq<nat>, up: seq<int>, flag: seq<nat>)
    requires Table(table) && |freq| == |up| == |flag| == NODES && freq[..SYMBOLS] == table
    requires forall i :: 0 <= i < NODES ==> up[i] == -1
    ensures Tracks(Start(table), table, freq, up, flag) && RunsTo(Start(table), table)
  {
    StartInv(table);
  }

  lemma {:induction false} TracksEnd(f: Forest, table: seq<nat>, freq: seq<nat>, up: seq<int>, flag: seq<nat>)
    requires Tracks(f, table, freq, up, flag) && RunsTo(f, table)
    requires |f.freq| == NODES || !HasTwo(f.freq)
    ensures Linked(Run(Start(table)), table, up, flag)
    ensures freq[..|Run(Start(table)).freq|] == Run(Start(table)).freq
  {
    hide Inv, Linked, HasTwo;
    assert Run(f) == f;
  }

  /** Hangs s0 and s1 under the new node j. */
  method MergeNodes(frequency: array<nat>, flag: array<nat>, up: array<int>, j: nat, s0: nat, s1: nat, sum: nat)
    requires frequency.Length == NODES && flag.Length == NODES && up.Length == NODES && frequency != flag
    requires s0 < j && s1 < j < NODES
    modifies frequency, flag, up
    ensures frequency[..] == old(frequency[..])[j := sum][s0 := 0][s1 := 0]
    ensures up[..] == old(up[..])[s0 := j][s1 := j]
    ensures flag[..] == old(flag[..])[s0 := 0][s1 := 1]
  {
    frequency[j] := sum;
    flag[s0] := 0;
    flag[s1] := 1;
    up[s0] := j;
    up[s1] := j;
    frequency[s0] := 0;
    frequency[s1] := 0;
  }

  /** The merge loop: afterwards the links describe the forest that Run builds. */
  method Merge(frequency: array<nat>, flag: array<nat>, up: array<int>, ghost table: seq<nat>)
    requires frequency.Length == NODES && flag.Length == NODES && up.Length == NODES && frequency != flag
    requires Table(table) && frequency[..SYMBOLS] == table
    requires forall i :: 0 <= i < NODES ==> up[i] == -1
    modifies frequency, flag, up
    ensures Linked(Run(Start(table)), table, up[..], flag[..])
    ensures frequency[..|Run(Start(table)).freq|] == Run(Start(table)).freq
  {
    ghost var f := Start(table);
    ghost var fr, u, g := frequency[..], up[..], flag[..];
    TracksStart(table, fr, u, g);
    hide *;
    var j := SYMBOLS;
    while j < NODES
      invariant SYMBOLS <= j <= NODES && |f.freq| == |f.tree| == j
      invariant fr == frequency[..] && u == up[..] && g == flag[..]
      invariant fr[..j] == f.freq
      invariant Tracks(f, table, fr, u, g) && RunsTo(f, table)
    {
      TracksBelowCeiling(f, table, fr, u, g);
      assert frequency[..j] == fr[..j];
      var min0, min1, s0, s1 := ScanSmallest(frequency, j);
      if min1 == CEILING {
        break;
      }
      var sum := min0 + min1;
      TracksStep(f, table, fr, u, g, s0, s1, sum);
      MergeNodes(frequency, flag, up, j, s0, s1, sum);
      fr, u, g := fr[j := sum][s0 := 0][s1 := 0], u[s0 := j][s1 := j], g[s0 := 0][s1 := 1];
      f := Step(f);
      j := j + 1;
    }
    TracksEnd(f, table, fr, u, g);
    assert forall n :: 0 <= n <= NODES ==> frequency[..n] == fr[..n];
  }

  // Code words

  /** The word of symbol j: bits are collected from the symbol upward, lowest bit first. */
  method ReadWord(up: array<int>, flag: array<nat>, j: nat) returns (bits: nat, len: nat, overflow: bool)
    requires up.Length == flag.Length == NODES && j < NODES && Rising(up[..])
    requires forall i :: 0 <= i < NODES && up[i] != -1 ==> flag[i] <= 1
    ensures len == |Walk(up[..], flag[..], j)|
    ensures bits == BitsValue(Walk(up[..], flag[..], j))
    ensures overflow <==> len > 31
  {
    ghost var c: seq<bool> := [];
    var node := j;
    len, bits, overflow := 0, 0, false;
    while up[node] != -1
      invariant node < NODES
      invariant Walk(up[..], flag[..], j) == Walk(up[..], flag[..], node) + c
      invariant len == |c| && bits == BitsValue(c)
      invariant overflow <==> len > 31
      decreases NODES - node
    {
      BitsPrepend(flag[node] == 1, c);
      bits := bits + flag[node] * Pow2(len);
      len := len + 1;
      c := [flag[node] == 1] + c;
      if len > 31 {
        overflow := true;
      }
      node := up[node];
    }
    assert [] + c == c;
  }

  /** The words that (bits, len) pairs stand for. */
  ghost function Words(bits: seq<nat>, len: seq<nat>): (code: seq<seq<bool>>)
    requires |bits| == |len|
    ensures |code| == |bits|
  {
    seq(|bits|, i requires 0 <= i < |bits| => BitString(bits[i], len[i]))
  }

  /** No prefix code for the table is cheaper. */
  ghost predicate Cheapest(table: seq<nat>, code: seq<seq<bool>>) {
    forall other :: PrefixFree(table, other) ==> Cost(table, Lengths(code)) <= Cost(table, Lengths(other))
  }

  /** Every stream of 22 bits or more starts with some symbol's word. */
  ghost predicate Covering(table: seq<nat>, code: seq<seq<bool>>)
    requires |code| == |table|
  {
    forall stream: seq<bool> :: |stream| >= 22 ==> exists s: nat :: Matches(table, code, stream, s)
  }

  ghost predicate KraftIsOne(table: seq<nat>, code: seq<seq<bool>>) {
    forall m: nat :: m >= 22 ==> Kraft(table, Lengths(code), m) == Pow2(m)
  }

  /** The finished forest for a table. */
  ghost predicate Finished(f: Forest, table: seq<nat>) {
    Table(table) && f == Run(Start(table)) && Inv(f, table) && Total(f.freq) == Total(table)
  }

  lemma {:induction false} RunFinishes(table: seq<nat>)
    requires Table(table)
    ensures Finished(Run(Start(table)), table)
  {
    StartInv(table);
    RunInv(Start(table), table);
    RunCounts(Start(table));
  }

  lemma {:induction false} WalkShort(f: Forest, table: seq<nat>, up: seq<int>, flag: seq<nat>, s: nat)
    requires Finished(f, table) && Linked(f, table, up, flag) && s < SYMBOLS
    ensures |Walk(up, flag, s)| <= 22 && BitsValue(Walk(up, flag, s)) < Pow2(|Walk(up, flag, s)|)
    ensures table[s] == 0 ==> Walk(up, flag, s) == []
  {
    BitsBound(Walk(up, flag, s));
    if table[s] != 0 {
      assert Owned(f, s);
      var i: nat :| OwnedAt(f, s, i);
      SymbolWalk(f, table, up, flag, i, s);
      HeightBound(f, table, i);
    } else {
      assert LinkedAt(f, table, up, flag, s);
    }
  }

  /** The stored pairs are the collected words. */
  ghost predicate Stored(up: seq<int>, flag: seq<nat>, bits: seq<nat>, len: seq<nat>)
    requires Rising(up) && |flag| == |up| == NODES
  {
    && |bits| == |len| <= SYMBOLS
    && forall s: nat :: s < |bits| ==> bits[s] == BitsValue(Walk(up, flag, s)) && len[s] == |Walk(up, flag, s)|
  }

  lemma {:induction false} WordsCoded(f: Forest, table: seq<nat>, up: seq<int>, flag: seq<nat>, bits: seq<nat>, len: seq<nat>)
    requires Finished(f, table) && Linked(f, table, up, flag)
    requires Stored(up, flag, bits, len) && |bits| == SYMBOLS
    ensures Coded(f, table, Words(bits, len))
    ensures forall s: nat :: s < SYMBOLS ==> len[s] <= 22 && bits[s] < Pow2(len[s]) && (table[s] == 0 ==> len[s] == 0)
  {
    forall i: nat, s: nat | OwnedAt(f, s, i) && s < SYMBOLS
      ensures Words(bits, len)[s] == Path(f.tree[i], s)
    {
      SymbolWalk(f, table, up, flag, i, s);
      BitsRoundTrip(Walk(up, flag, s));
    }
    forall s: nat | s < SYMBOLS
      ensures len[s] <= 22 && bits[s] < Pow2(len[s]) && (table[s] == 0 ==> len[s] == 0)
    {
      WalkShort(f, table, up, flag, s);
    }
  }

  /** Reads the words of all symbols. */
  method ReadWords(up: array<int>, flag: array<nat>) returns (bits: seq<nat>, len: seq<nat>, overflow: bool)
    requires up.Length == flag.Length == NODES && Rising(up[..])
    requires forall i :: 0 <= i < NODES && up[i] != -1 ==> flag[i] <= 1
    ensures |bits| == SYMBOLS && Stored(up[..], flag[..], bits, len)
    ensures overflow <==> exists s :: 0 <= s < SYMBOLS && len[s] > 31
  {
    bits, len, overflow := [], [], false;
    var j := 0;
    while j < SYMBOLS
      invariant 0 <= j <= SYMBOLS && |bits| == |len| == j
      invariant Stored(up[..], flag[..], bits, len)
      invariant overflow <==> exists s :: 0 <= s < j && len[s] > 31
    {
      var b, l, o := ReadWord(up, flag, j);
      bits := bits + [b];
      len := len + [l];
      assert len[j] == l;
      overflow := overflow || o;
      j := j + 1;
    }
  }

  /** How many trees are left: one up to 256 active symbols, two with all 257. */
  lemma {:induction false} RootsLeft(table: seq<nat>)
    requires Table(table)
    ensures 1 <= LiveCount(table) <= 257
    ensures LiveCount(Run(Start(table)).freq) == if LiveCount(table) == 257 then 2 else 1
  {
    var f := Run(Start(table));
    RunCounts(Start(table));
    HasTwoIffCount(f.freq);
    SumAtLeast(SYMBOLS, LiveMark(table), 256);
    var one := (i: nat) => 1;
    SumMono(SYMBOLS, LiveMark(table), one);
    SumOfOnes(SYMBOLS, one);
    if LiveCount(f.freq) < 1 {
      RunKeepsOne(Start(table));
    }
  }

  /** The table with all 257 symbols active is a legal one, so the unusable case does occur. */
  lemma {:induction false} AllSymbolsActive()
    ensures var table: seq<nat> := seq(SYMBOLS, i => 1); Table(table) && LiveCount(table) == 257
  {
    var table: seq<nat> := seq(SYMBOLS, i => 1);
    var one := (i: nat) => 1;
    SumExt(SYMBOLS, LiveMark(table), one);
    SumOfOnes(SYMBOLS, one);
  }

  lemma {:induction false} SumOfOnes(n: nat, one: nat -> int)
    requires forall i: nat :: one(i) == 1
    ensures Sum(n, one) == n
  {
    if n > 0 {
      SumOfOnes(n - 1, one);
    }
  }

  lemma {:induction false} RunKeepsOne(f: Forest)
    requires |f.freq| == |f.tree| <= NODES && LiveCount(f.freq) >= 1
    ensures LiveCount(Run(f).freq) >= 1
    decreases NODES - |f.freq|
  {
    if |f.freq| < NODES && HasTwo(f.freq) {
      StepCounts(f);
      HasTwoIffCount(f.freq);
      RunKeepsOne(Step(f));
    }
  }

  /** The code is usable exactly for 2 to 256 active symbols. */
  lemma {:induction false} UsableIff(table: seq<nat>, code: seq<seq<bool>>)
    requires Table(table) && Inv(Run(Start(table)), table) && Coded(Run(Start(table)), table, code)
    ensures Usable(table, code) <==> 2 <= LiveCount(table) <= 256
  {
    var f := Run(Start(table));
    RootsLeft(table);
    HasTwoIffCount(table);
    HasTwoIffCount(f.freq);
    if LiveCount(table) == 257 {
      TwoTreesUnusable(f, table, code);
    } else if LiveCount(table) >= 2 {
      var i := SomeLive(f.freq);
      assert forall j :: Live(f.freq, j) ==> j == i;
      OneTreeUsable(f, table, code, i);
    } else {
      assert Start(table) == f;
      assert OwnedAt(f, 256, 256) && code[256] == Path(f.tree[256], 256) == [];
      assert Live(table, 256);
    }
  }

  /** For 2 to 256 active symbols the code is complete, covers every stream and is cheapest. */
  lemma {:induction false} HuffmanCode(table: seq<nat>, code: seq<seq<bool>>)
    requires Table(table) && Inv(Run(Start(table)), table) && Coded(Run(Start(table)), table, code)
    requires 2 <= LiveCount(table) <= 256
    ensures KraftIsOne(table, code) && Covering(table, code) && Cheapest(table, code)
  {
    var f := Run(Start(table));
    RootsLeft(table);
    HasTwoIffCount(f.freq);
    var i := SomeLive(f.freq);
    assert forall j :: Live(f.freq, j) ==> j == i;
    RunCounts(Start(table));
    HeightBound(f, table, i);
    assert SoundAt(f, table, i);
    UsableIff(table, code);
    forall m: nat | m >= 22 ensures Kraft(table, Lengths(code), m) == Pow2(m) {
      OneTreeKraft(f, table, code, i, m);
    }
    forall stream: seq<bool> | |stream| >= 22 ensures exists s: nat :: Matches(table, code, stream, s) {
      var s := Descend(f.tree[i], table, stream);
      LeavesInTable(f.tree[i], table, s);
      assert OwnedAt(f, s, i);
      assert Matches(table, code, stream, s);
    }
    OneTreeCost(f, table, code, i);
    forall other | PrefixFree(table, other)
      ensures Cost(table, Lengths(code)) <= Cost(table, Lengths(other))
    {
      PrefixCodeOptimal(table, other);
    }
  }

  lemma {:induction false} FlagBits(f: Forest, table: seq<nat>, up: seq<int>, flag: seq<nat>)
    requires Finished(f, table) && Linked(f, table, up, flag)
    ensures forall i :: 0 <= i < NODES && up[i] != -1 ==> flag[i] <= 1
  {
    forall i | 0 <= i < NODES && up[i] != -1 ensures flag[i] <= 1 {
      assert LinkedAt(f, table, up, flag, i);
    }
  }

  /** The table reader. The buffer holds two padding bytes beyond size. */
  method ReadHuffmanTables(buf: seq<nat>, size: nat)
    returns (ok: bool, next: nat, bits: seq<nat>, len: seq<nat>, overflow: bool, ghost table: seq<nat>)
    requires |buf| >= size + 2 && Bytes(buf)
    ensures ok <==> ReadTable(buf, size).Some?
    ensures ok ==> ReadTable(buf, size) == Some((next, table)) && |bits| == |len| == SYMBOLS
    ensures ok ==> !overflow && forall s: nat :: s < SYMBOLS ==> len[s] <= 22 && bits[s] < Pow2(len[s])
    ensures ok ==> forall s: nat :: s < SYMBOLS && table[s] == 0 ==> len[s] == 0
    ensures ok ==> (Usable(table, Words(bits, len)) <==> 2 <= LiveCount(table) <= 256)
    ensures ok && 2 <= LiveCount(table) <= 256 ==>
              && KraftIsOne(table, Words(bits, len))
              && Covering(table, Words(bits, len))
              && Cheapest(table, Words(bits, len))
  {
    var frequency := new nat[NODES](i => 0);
    var flag := new nat[NODES];
    var up := new int[NODES](i => -1);
    bits, len, overflow, table := [], [], false, [];
    ok, next := ReadFrequencies(buf, size, frequency);
    if !ok {
      return;
    }
    table := ReadTable(buf, size).value.1;
    Merge(frequency, flag, up, table);
    ghost var f := Run(Start(table));
    RunFinishes(table);
    ghost var u, g := up[..], flag[..];
    FlagBits(f, table, u, g);
    bits, len, overflow := ReadWords(up, flag);
    WordsCoded(f, table, u, g, bits, len);
    UsableIff(table, Words(bits, len));
    if 2 <= LiveCount(table) <= 256 {
      HuffmanCode(table, Words(bits, len));
    }
  }
}
