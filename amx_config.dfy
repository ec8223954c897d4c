/** The configuration of the AMX BRGEMM kernel executor and the keys under
    which its kernels are cached: the static parameters that extend the base
    BRGEMM configuration with `wei_K_blk` and `vnni_factor`, the dynamic
    shape (M, N, K, leading dimensions, beta), and the key of the copy-A
    repacking kernel. Equality of keys is field-wise and the hashes are a
    fold of an uninterpreted `hash_combine` over exactly the compared fields. */
module AmxConfig {
  import opened CppArith

  /** `dnnl_data_type_t`, `cpu_isa_t` and the post-ops record are opaque codes. */
  type DataType = int
  type Isa = int
  type PostOps = int

  /** `dnnl_data_type_size`: the size in bytes of an element of each data
      type, supplied by the caller. */
  type DataTypeSize = DataType -> int

  /** The size_t accumulated by the hashes. */
  type Seed = nat

  /** `hash_combine(seed, value)`: left uninterpreted, supplied by the caller. */
  type Combine = (Seed, int) -> Seed

  /** The part of the static parameters kept by the base BRGEMM configuration. */
  datatype StaticBaseParams = StaticBaseParams(
    dtIn0: DataType, dtIn1: DataType, dtOut: DataType, isa: Isa, postOps: PostOps)

  /** `BrgemmAMXKernelConfig::StaticParams`. */
  datatype StaticParams = StaticParams(base: StaticBaseParams, weiKBlk: int, vnniFactor: int)

  /** `StaticParams::operator==`: the base parameters, then `wei_K_blk` and
      `vnni_factor`. The base comparison is taken as field-wise. */
  function StaticParamsEq(p: StaticParams, rhs: StaticParams): (r: bool)
    ensures r <==> p == rhs
  {
    p.base == rhs.base && p.weiKBlk == rhs.weiKBlk && p.vnniFactor == rhs.vnniFactor
  }

  /** Folds `hash_combine` over `values`, starting from `seed`. */
  function HashFields(combine: Combine, seed: Seed, values: seq<int>): (h: Seed)
    decreases |values|
  {
    if values == [] then seed else HashFields(combine, combine(seed, values[0]), values[1..])
  }

  /** `StaticParams::compute_hash`: the hash of the two AMX-specific fields,
      handed to the base configuration. */
  function StaticParamsHash(combine: Combine, p: StaticParams): (h: Seed)
    // seed 0, then `wei_K_blk`, then `vnni_factor`
    ensures h == combine(combine(0, p.weiKBlk), p.vnniFactor)
  {
    var fields := [p.weiKBlk, p.vnniFactor];
    assert fields[1..] == [p.vnniFactor] && fields[1..][1..] == [];
    assert HashFields(combine, 0, fields) == HashFields(combine, combine(0, p.weiKBlk), [p.vnniFactor]);
    HashFields(combine, 0, fields)
  }

  /** Parameters equal under `operator==` hash equally, whatever `hash_combine` is. */
  lemma StaticParamsEqualHash(combine: Combine, p: StaticParams, rhs: StaticParams)
    requires StaticParamsEq(p, rhs)
    ensures StaticParamsHash(combine, p) == StaticParamsHash(combine, rhs)
  {
  }

  /** The dynamic part of `BrgemmAMXKernelConfig` together with its static
      parameters. `empty` is the base configuration's `is_empty()`. */
  datatype KernelConfig = KernelConfig(
    params: StaticParams,
    M: int, N: int, K: int,
    LDA: int, LDB: int, LDC: int,
    beta: real,
    empty: bool)
  {
    /** What the executor's arithmetic needs: a positive K block
        (it is a divisor) and a positive VNNI factor (a modulus). */
    predicate Valid()
    {
      params.weiKBlk > 0 && params.vnniFactor > 0
    }
  }

  /** `BrgemmAMXKernelConfig::need_copy_a`: `K % vnni_factor > 0`, with the
      C++ remainder. */
  function NeedCopyA(config: KernelConfig, K: int): (r: bool)
    requires config.params.vnniFactor > 0
    ensures K >= 0 ==> (r <==> !MultipleOf(K, config.params.vnniFactor))
    ensures K <= 0 ==> !r
  {
    CRem(K, config.params.vnniFactor) > 0
  }

  /** A `K` rounded up to the VNNI factor needs no repacking, and it is the
      least such `K` not below the original. */
  lemma RoundedTailNeedsNoCopyA(config: KernelConfig, K: int)
    requires config.params.vnniFactor > 0 && K >= 0
    ensures !NeedCopyA(config, RoundUp(K, config.params.vnniFactor))
    ensures K <= RoundUp(K, config.params.vnniFactor) < K + config.params.vnniFactor
    ensures !NeedCopyA(config, K) ==> RoundUp(K, config.params.vnniFactor) == K
  {
    var v := config.params.vnniFactor;
    var r := RoundUp(K, v);
    if !NeedCopyA(config, K) && r != K {
      // r and K are both multiples of v, and 0 < r - K < v
      var q, q' := r / v, K / v;
      assert r == q * v && K == q' * v;
      assert (q - q') * v == r - K;
      if q - q' >= 1 {
        MulAtLeast(q - q', v);
      } else {
        assert q' - q >= 0;
        assert (q' - q) * v == K - r;
        if q' - q >= 1 {
          MulAtLeast(q' - q, v);
        }
      }
    }
  }

  /** The key of the copy-A repacking kernel. */
  datatype CopyAKey = CopyAKey(
    isa: Isa, dt: DataType, K: int, KBlk: int, KTail: int, srcStride: int, LDA: int)

  /** `BrgemmCopyAKey::operator==`: every field is compared. */
  function CopyAKeyEq(k: CopyAKey, rhs: CopyAKey): (r: bool)
    ensures r <==> k == rhs
  {
    k.isa == rhs.isa && k.dt == rhs.dt && k.K == rhs.K && k.KBlk == rhs.KBlk
    && k.KTail == rhs.KTail && k.srcStride == rhs.srcStride && k.LDA == rhs.LDA
  }

  /** `BrgemmCopyAKey::hash`: `hash_combine` folded over the same fields,
      in declaration order. */
  function CopyAKeyHash(combine: Combine, k: CopyAKey): (h: Seed)
    // seed 0, then each field in turn, one `hash_combine` per field
    ensures h == combine(combine(combine(combine(combine(combine(combine(
                   0, k.isa), k.dt), k.K), k.KBlk), k.KTail), k.srcStride), k.LDA)
  {
    var fields := [k.isa, k.dt, k.K, k.KBlk, k.KTail, k.srcStride, k.LDA];
    HashFieldsUnroll(combine, 0, fields);
    HashFields(combine, 0, fields)
  }

  /** Unrolls the fold over seven fields into seven `hash_combine` steps. */
  lemma HashFieldsUnroll(combine: Combine, seed: Seed, v: seq<int>)
    requires |v| == 7
    ensures HashFields(combine, seed, v) ==
      combine(combine(combine(combine(combine(combine(combine(
        seed, v[0]), v[1]), v[2]), v[3]), v[4]), v[5]), v[6])
  {
    var s1 := combine(seed, v[0]);
    var s2 := combine(s1, v[1]);
    var s3 := combine(s2, v[2]);
    var s4 := combine(s3, v[3]);
    var s5 := combine(s4, v[4]);
    var s6 := combine(s5, v[5]);
    calc {
      HashFields(combine, seed, v);
      HashFields(combine, s1, v[1..]);
      { assert v[1..][1..] == v[2..]; }
      HashFields(combine, s2, v[2..]);
      { assert v[2..][1..] == v[3..]; }
      HashFields(combine, s3, v[3..]);
      { assert v[3..][1..] == v[4..]; }
      HashFields(combine, s4, v[4..]);
      { assert v[4..][1..] == v[5..]; }
      HashFields(combine, s5, v[5..]);
      { assert v[5..][1..] == v[6..]; }
      HashFields(combine, s6, v[6..]);
      { assert v[6..][1..] == []; }
      combine(s6, v[6]);
    }
  }

  /** Keys equal under `operator==` hash equally, whatever `hash_combine` is. */
  lemma CopyAKeyEqualHash(combine: Combine, k: CopyAKey, rhs: CopyAKey)
    requires CopyAKeyEq(k, rhs)
    ensures CopyAKeyHash(combine, k) == CopyAKeyHash(combine, rhs)
  {
  }
}
