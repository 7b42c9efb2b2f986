/**
  The cells of the benchmark list and the two comparators (software/coremark_app/cmark.c:427-486).
  Comparing has side effects: cmp_complex computes a value on first sight of a cell and caches it in
  the cell, cmp_idx without results regenerates the low byte of a cell from its high byte.
*/
module ListCells {
  import opened Words
  import opened Crc16
  import StateBench
  import StateScanner
  import MatrixBench

  class ListData {
    var data16: bv16
    var idx: S16

    // A search key on the stack: its data is not initialised.
    constructor (idx: S16)
      ensures this.idx == idx
    {
      this.idx := idx;
    }
  }

  class ListHead {
    var next: ListHead?
    var info: ListData
    constructor (info: ListData)
      ensures this.info == info && next == null
    {
      this.info := info;
      next := null;
    }
  }

  class Results {
    const seed1: bv16
    const seed2: bv16
    const seed3: S16
    const memblock3: array<bv8>
    const mat: MatrixBench.MatParams
    var list: ListHead
    var crc: bv16
    var crclist: bv16
    var crcmatrix: bv16
    var crcstate: bv16
    // How often calc_func has run a kernel or taken the data for one.
    ghost var runs: nat

    constructor (seed1: bv16, seed2: bv16, seed3: S16, memblock3: array<bv8>, mat: MatrixBench.MatParams,
      list: ListHead)
      ensures this.seed1 == seed1 && this.seed2 == seed2 && this.seed3 == seed3 && this.memblock3 == memblock3
      ensures this.mat == mat && this.list == list && crc == crclist == crcmatrix == crcstate == 0 && runs == 0
    {
      this.seed1, this.seed2, this.seed3, this.memblock3, this.mat, this.list := seed1, seed2, seed3, memblock3, mat,
        list;
      crc, crclist, crcmatrix, crcstate, runs := 0, 0, 0, 0, 0;
    }

    // What the kernels need to run again and again: the state buffer ends in two zeros, which survive
    // as the seeds agree in their low byte; the matrices are laid out apart.
    ghost predicate Ready()
      reads memblock3
    {
      MatrixBench.Shaped(mat) && memblock3 as object != mat.a && memblock3 as object != mat.b &&
      memblock3 as object != mat.c &&
      StateBench.Low(seed1) == StateBench.Low(seed2) != StateScanner.COMMA && StateBench.EndsInZeros(memblock3[..])
    }
  }

  ghost function Target(res: Results?): set<Results> { if res == null then {} else {res} }

  ghost function Ran(res: Results?): nat
    reads Target(res)`runs
  {
    if res == null then 0 else res.runs
  }

  // The buffers the kernels work in.
  ghost function Buffers(res: Results?): set<object> {
    if res == null then {} else {res.memblock3 as object, res.mat.a, res.mat.c}
  }

  datatype Comparator = ByValue | ByIndex
  datatype Mode = Complex | IdxRegen | IdxOnly

  function ModeOf(cmp: Comparator, res: Results?): Mode {
    match cmp
    case ByValue => Complex
    case ByIndex => if res == null then IdxRegen else IdxOnly
  }

  // cmp_complex needs results to work with; cmp_idx only looks whether there are any.
  ghost predicate Usable(cmp: Comparator, res: Results?)
    reads Buffers(res)
  {
    (cmp == ByValue ==> res != null) && (res != null ==> res.Ready())
  }

  predicate Cached(d: bv16) { (d >> 7) & 1 == 1 }
  function Unseen(d: bv16): nat { if Cached(d) then 0 else 1 }
  function Value(d: bv16): int { (d & 0x7f) as int }
  function Regenerated(d: bv16): bv16 { (d & 0xff00) | (0xff & (d >> 8)) }

  predicate Settled(m: Mode, d: bv16) {
    match m
    case Complex => Cached(d)
    case IdxRegen => d == Regenerated(d)
    case IdxOnly => true
  }

  predicate Evolves(m: Mode, a: bv16, b: bv16) {
    match m
    case Complex =>
      b == a || (!Cached(a) && Cached(b) && a & 0xff00 == b & 0xff00 && (a & 7 >= 2 ==> a & 0x7f == b & 0x7f))
    case IdxRegen => b == a || b == Regenerated(a)
    case IdxOnly => b == a
  }

  function Key(m: Mode, d: bv16, idx: S16): int
  {
    if m == Complex then Value(d) else idx
  }

  // ---------- calc_func ----------

  function WithValue(data: bv16, retval: bv16): bv16 { (data & 0xff00) | 0x80 | (retval & 0x7f) }

  lemma CachesValue(data: bv16, retval: bv16)
    requires !Cached(data) && (data & 7 >= 2 ==> retval == data)
    ensures Evolves(Complex, data, WithValue(data, retval)) && Cached(WithValue(data, retval))
    ensures WithValue(data, retval) & 0x7f == retval & 0x7f
  {
  }

  // Bits 3-6 replicated to eight bits.
  function DataType(data: bv16): bv16 { var t := (data >> 3) & 0xf; t | (t << 4) }

  // The stride of the state benchmark.
  function Stride(data: bv16): (s: bv16) { if DataType(data) < 0x22 then 0x22 else DataType(data) }

  // The nibble of bits 3 to 6 twice, that is seventeen times it; the stride is that, but 34 at least.
  lemma DataTypeIs(data: bv16)
    ensures DataType(data) == 17 * ((data / 8) % 16)
    ensures Stride(data) >= 34 && Stride(data) >= DataType(data)
    ensures Stride(data) == 34 || Stride(data) == DataType(data)
  {
  }

  lemma StrideFits(data: bv16)
    ensures 2 <= Stride(data) as int && DataType(data) as int < 0x100
  {
    var s, t := Stride(data), DataType(data);
    assert 2 <= s && t < 0x100;
  }

  // The value calc_func computes for an element seen for the first time.
  ghost function Fresh(data: bv16, mem: seq<bv8>, a: seq<S16>, b: seq<S16>, n: nat, seed1: bv16, crc: bv16): bv16
    requires StateBench.EndsInZeros(mem) && |a| == |b| == n * n
  {
    if data & 7 == 0 then
      StrideFits(data);
      StateBench.ScansStayInside(mem, StateBench.Low(seed1), Stride(data) as int);
      StateBench.BenchValue(mem, StateBench.Low(seed1), Stride(data) as int, crc)
    else if data & 7 == 1 then
      StrideFits(data);
      Fold(LittleEndian16(MatrixBench.TestValue(a, b, n, DataType(data) as int)), crc)
    else data
  }

  method BenchState(res: Results, stride: bv16) returns (retval: bv16)
    requires res.Ready() && 2 <= stride as int
    modifies res.memblock3
    ensures res.Ready()
    ensures StateBench.EndsInZeros(old(res.memblock3[..])) && StateBench.Terminated(old(res.memblock3[..]), 0)
    ensures StateBench.Terminated(StateBench.Corrupted(old(res.memblock3[..]), StateBench.Low(res.seed1),
            stride as int), 0)
    ensures retval == StateBench.BenchValue(old(res.memblock3[..]), StateBench.Low(res.seed1), stride as int, res.crc)
  {
    hide StateBench.BenchValue, StateBench.Terminated, StateBench.Corrupted, StateBench.Low;
    ghost var mem, low := res.memblock3[..], StateBench.Low(res.seed1);
    StateBench.ScansStayInside(mem, low, stride as int);
    StateBench.ZerosSurvive(mem, low, stride as int);
    retval := StateBench.CoreBenchState(res.memblock3, res.seed1, res.seed2, stride as int, res.crc);
  }

  // The kernel an element asks for, or none.
  method RunKernel(data: bv16, res: Results) returns (retval: bv16)
    requires res.Ready()
    modifies res`runs, res`crcmatrix, res`crcstate, Buffers(res)
    ensures res.Ready() && res.mat.a[..] == old(res.mat.a[..]) && (data & 7 >= 2 ==> retval == data)
    ensures res.runs == old(res.runs) + 1
    ensures retval == Fresh(data, old(res.memblock3[..]), old(res.mat.a[..]), res.mat.b[..], res.mat.n, res.seed1,
            res.crc)
  {
    hide StateBench.BenchValue, StateBench.Terminated, StateBench.Corrupted, StateBench.Low, StateBench.EndsInZeros,
         MatrixBench.TestValue, Fold, LittleEndian16, DataType, Stride;
    var flag, dtype := data & 7, DataType(data);
    res.runs := res.runs + 1;
    StrideFits(data);
    BigFlag(data);
    if flag == 0 {
      retval := BenchState(res, Stride(data));
      if res.crcstate == 0 { res.crcstate := retval; }
    } else if flag == 1 {
      retval := MatrixBench.CoreBenchMatrix(res.mat, dtype as int, res.crc);
      if res.crcmatrix == 0 { res.crcmatrix := retval; }
    } else {
      retval := data;
    }
  }

  method CalcFunc(d: ListData, res: Results) returns (retval: bv16)
    requires res.Ready()
    modifies d`data16, res`crc, res`runs, res`crcmatrix, res`crcstate, Buffers(res)
    ensures res.Ready() && res.mat.a[..] == old(res.mat.a[..])
    ensures Evolves(Complex, old(d.data16), d.data16) && Cached(d.data16) && retval == d.data16 & 0x7f
    ensures Cached(old(d.data16)) ==>
            d.data16 == old(d.data16) && res.crc == old(res.crc) &&
            res.memblock3[..] == old(res.memblock3[..])
    ensures res.runs == old(res.runs + Unseen(d.data16))
    ensures !Cached(old(d.data16)) ==>
              var v := Fresh(old(d.data16), old(res.memblock3[..]), old(res.mat.a[..]), res.mat.b[..], res.mat.n,
                res.seed1, old(res.crc));
              d.data16 == WithValue(old(d.data16), v) && res.crc == Fold(LittleEndian16(v), old(res.crc))
  {
    hide Fresh, Fold, LittleEndian16, WithValue, Evolves, Cached, Results.Ready;
    var data := d.data16;
    if (data >> 7) & 1 == 1 {
      CachedStays(data);
      return data & 0x7f;
    }
    retval := RunKernel(data, res);
    NotCached(data);
    CachesValue(data, retval);
    res.crc := Crcu16(retval, res.crc);
    d.data16 := WithValue(data, retval);
    retval := retval & 0x7f;
  }

  lemma CachedStays(data: bv16)
    requires (data >> 7) & 1 == 1
    ensures Cached(data) && Evolves(Complex, data, data)
  {
  }

  lemma NotCached(data: bv16)
    requires (data >> 7) & 1 != 1
    ensures !Cached(data)
  {
  }

  lemma BigFlag(data: bv16)
    ensures data & 7 >= 2 <==> data & 7 != 0 && data & 7 != 1
  {
  }

  // ---------- the comparators ----------

  method CmpComplex(a: ListData, b: ListData, res: Results) returns (r: int)
    requires a != b && res.Ready()
    modifies a`data16, b`data16, res`crc, res`runs, res`crcmatrix, res`crcstate, Buffers(res)
    ensures res.Ready() && res.mat.a[..] == old(res.mat.a[..])
    ensures Cached(a.data16) && Cached(b.data16)
    ensures Evolves(Complex, old(a.data16), a.data16) && Evolves(Complex, old(b.data16), b.data16)
    ensures r == Value(a.data16) - Value(b.data16)
    ensures res.runs == old(res.runs + Unseen(a.data16) + Unseen(b.data16))
  {
    hide Evolves, Cached, Fresh, WithValue;
    var val1 := CalcFunc(a, res);
    var val2 := CalcFunc(b, res);
    r := val1 as int - val2 as int;
  }

  method CmpIdx(a: ListData, b: ListData, res: Results?) returns (r: int)
    modifies a`data16, b`data16
    ensures res == null ==> a.data16 == Regenerated(old(a.data16)) && b.data16 == Regenerated(old(b.data16))
    ensures res != null ==> a.data16 == old(a.data16) && b.data16 == old(b.data16)
    ensures r == a.idx - b.idx
  {
    if res == null {
      RegeneratedAgain(a.data16);
      a.data16 := (a.data16 & 0xff00) | (0xff & (a.data16 >> 8));
      b.data16 := (b.data16 & 0xff00) | (0xff & (b.data16 >> 8));
    }
    r := a.idx - b.idx;
  }

  lemma RegeneratedAgain(d: bv16)
    ensures Regenerated(Regenerated(d)) == Regenerated(d)
  {
  }

  // The call through the function pointer cmp.
  method Compare(cmp: Comparator, a: ListData, b: ListData, res: Results?) returns (r: int)
    requires a != b
    requires Usable(cmp, res)
    modifies a`data16, b`data16, Target(res)`crc, Target(res)`runs, Target(res)`crcmatrix, Target(res)`crcstate,
             Buffers(res)
    ensures Usable(cmp, res)
    ensures Settled(ModeOf(cmp, res), a.data16) && Settled(ModeOf(cmp, res), b.data16)
    ensures Evolves(ModeOf(cmp, res), old(a.data16), a.data16)
    ensures Evolves(ModeOf(cmp, res), old(b.data16), b.data16)
    ensures r == Key(ModeOf(cmp, res), a.data16, a.idx) - Key(ModeOf(cmp, res), b.data16, b.idx)
    ensures ModeOf(cmp, res) == Complex ==> Ran(res) == old(Ran(res) + Unseen(a.data16) + Unseen(b.data16))
  {
    hide Cached, Regenerated, Value;
    match cmp
    case ByValue =>
      r := CmpComplex(a, b, res);
    case ByIndex =>
      RegeneratedAgain(a.data16);
      RegeneratedAgain(b.data16);
      r := CmpIdx(a, b, res);
  }
}
