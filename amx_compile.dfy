/** `BrgemmAMXKernelExecutor::compile_kernel`: the reduction dimension K is
    split into a body, a whole number of `wei_K_blk` blocks, and a tail; a
    BRGEMM kernel is built for each non-empty part, and a copy-A kernel
    repacks the source for the tail when the tail is not a multiple of the
    VNNI factor. The kernel cache is a pure function from key to kernel, so
    a built kernel is identified by the key it was built from. */
module AmxCompile {
  import opened CppArith
  import opened AmxConfig

  datatype Option<T> = None | Some(value: T)

  /** The BRGEMM kernel that `create_brgemm_kernel` builds for `key`
      (its code and palette are foreign). */
  datatype BrgemmKernel = BrgemmKernel(key: KernelConfig)

  /** `BrgemmAMXCompiledKernel`: the three kernel slots, each possibly null. */
  datatype CompiledKernel = CompiledKernel(
    bodyKernel: Option<BrgemmKernel>,
    copyAKernel: Option<CopyAKey>,
    tailKernel: Option<BrgemmKernel>)

  const NoKernels := CompiledKernel(None, None, None)

  /** The split of K into a body and a tail. */
  datatype KSplit = KSplit(body: int, tail: int)

  /** `K_tail = K % wei_K_blk; K_body = K - K_tail` (C++ remainder), computed
      identically by `compile_kernel` and `execute`. */
  function SplitK(config: KernelConfig): (s: KSplit)
    requires config.params.weiKBlk > 0
    ensures s.body + s.tail == config.K
    ensures MultipleOf(s.body, config.params.weiKBlk)
    ensures config.K >= 0 ==> 0 <= s.tail < config.params.weiKBlk && 0 <= s.body
    ensures config.K < 0 ==> -config.params.weiKBlk < s.tail <= 0 && s.body <= 0
  {
    var tail := CRem(config.K, config.params.weiKBlk);
    KSplit(config.K - tail, tail)
  }

  /** For a non-negative K the split is the only one with a tail below the
      block size and a body that is a multiple of it. */
  lemma SplitKUnique(config: KernelConfig, body: int, tail: int)
    requires config.params.weiKBlk > 0 && config.K >= 0
    requires body + tail == config.K && 0 <= tail < config.params.weiKBlk
    requires MultipleOf(body, config.params.weiKBlk)
    ensures SplitK(config) == KSplit(body, tail)
  {
    var blk := config.params.weiKBlk;
    var q := body / blk;
    assert body == q * blk;
    DivModUnique(config.K, blk, q, tail);
  }

  /** A body and a tail that are both present differ: the body is at least a
      whole block in magnitude and the tail is shorter than one. */
  lemma BodyDiffersFromTail(config: KernelConfig)
    requires config.params.weiKBlk > 0
    requires SplitK(config).body != 0 && SplitK(config).tail != 0
    ensures config.K >= 0 ==> SplitK(config).tail < config.params.weiKBlk <= SplitK(config).body
    ensures config.K < 0 ==> SplitK(config).body <= -config.params.weiKBlk < SplitK(config).tail
    ensures SplitK(config).body != SplitK(config).tail
  {
    var s, blk := SplitK(config), config.params.weiKBlk;
    if config.K >= 0 {
      PositiveMultipleAtLeast(s.body, blk);
    } else {
      MultipleOfNeg(s.body, blk);
      PositiveMultipleAtLeast(-s.body, blk);
    }
  }

  /** The lambda `brgemm_key`: the configuration with K, LDA and beta replaced. */
  function BrgemmKey(config: KernelConfig, K: int, LDA: int, beta: real): (key: KernelConfig)
    ensures key.K == K && key.LDA == LDA && key.beta == beta
    // M, N, LDB, LDC and the static parameters are the configuration's own
    ensures key.(K := config.K, LDA := config.LDA, beta := config.beta) == config
  {
    config.(K := K, LDA := LDA, beta := beta)
  }

  /** The tail is repacked by copy-A exactly when it is present and
      `need_copy_a` holds for it. */
  predicate TailNeedsCopyA(config: KernelConfig)
    requires config.Valid()
  {
    var s := SplitK(config);
    s.tail != 0 && NeedCopyA(config, s.tail)
  }

  /** The kernels `compile_kernel` builds for `config`; `dtSize` gives the
      element size of input 0, which scales the copy-A source stride. */
  function KernelPlan(config: KernelConfig, dtSize: DataTypeSize): (compiled: CompiledKernel)
    requires config.Valid()
    ensures config.empty ==> compiled == NoKernels
    ensures !config.empty ==>
      && (compiled.bodyKernel.Some? <==> SplitK(config).body != 0)
      && (compiled.tailKernel.Some? <==> SplitK(config).tail != 0)
      && (compiled.copyAKernel.Some? <==> TailNeedsCopyA(config))
    // the body kernel covers the body with the configuration's LDA and beta
    ensures compiled.bodyKernel.Some? ==>
      compiled.bodyKernel.value.key == config.(K := SplitK(config).body)
    // the tail accumulates onto the body's result when there is one
    ensures compiled.tailKernel.Some? ==>
      && compiled.tailKernel.value.key.beta == (if compiled.bodyKernel.Some? then 1.0 else config.beta)
      && compiled.tailKernel.value.key.(beta := config.beta, K := config.K, LDA := config.LDA) == config
    // without repacking the tail kernel reads the source as it is
    ensures compiled.tailKernel.Some? && compiled.copyAKernel.None? ==>
      && compiled.tailKernel.value.key.K == SplitK(config).tail
      && compiled.tailKernel.value.key.LDA == config.LDA
    // with repacking the tail is padded up to the VNNI factor
    ensures compiled.copyAKernel.Some? ==>
      var copyA, tailKey, v := compiled.copyAKernel.value, compiled.tailKernel.value.key, config.params.vnniFactor;
      && compiled.tailKernel.Some?
      && copyA == CopyAKey(config.params.base.isa, config.params.base.dtIn0, config.K,
                           config.params.weiKBlk, tailKey.K, config.LDA * dtSize(config.params.base.dtIn0), tailKey.K)
      && tailKey.LDA == tailKey.K
      && SplitK(config).tail < tailKey.K < SplitK(config).tail + v
      && MultipleOf(tailKey.K, v) && !NeedCopyA(config, tailKey.K)
  {
    if config.empty then NoKernels
    else
      var s := SplitK(config);
      var copyA := TailNeedsCopyA(config);
      var tailK := if copyA then RoundUp(s.tail, config.params.vnniFactor) else s.tail;
      var tailLDA := if copyA then tailK else config.LDA;
      var tailBeta := if s.body != 0 then 1.0 else config.beta;
      assert copyA ==> !NeedCopyA(config, tailK) by {
        if copyA { RoundedTailNeedsNoCopyA(config, s.tail); }
      }
      CompiledKernel(
        if s.body != 0 then Some(BrgemmKernel(BrgemmKey(config, s.body, config.LDA, config.beta))) else None,
        if copyA then
          Some(CopyAKey(config.params.base.isa, config.params.base.dtIn0, config.K,
                        config.params.weiKBlk, tailK, config.LDA * dtSize(config.params.base.dtIn0), tailLDA))
        else None,
        if s.tail != 0 then Some(BrgemmKernel(BrgemmKey(config, tailK, tailLDA, tailBeta))) else None)
  }

  /** `compile_kernel`: fills the compiled kernel's slots step by step,
      updating the local `beta`, `K_tail` and `LDA` as it goes. */
  method CompileKernel(config: KernelConfig, dtSize: DataTypeSize) returns (compiled: CompiledKernel)
    requires config.Valid()
    ensures compiled == KernelPlan(config, dtSize)
  {
    compiled := NoKernels;
    if config.empty {
      return;
    }
    var kTail := CRem(config.K, config.params.weiKBlk);
    var kBody := config.K - kTail;
    var beta := config.beta;
    if kBody != 0 {
      compiled := compiled.(bodyKernel := Some(BrgemmKernel(BrgemmKey(config, kBody, config.LDA, beta))));
      beta := 1.0;
    }
    if kTail != 0 {
      var lda := config.LDA;
      if NeedCopyA(config, kTail) {
        var copyASrcStride := lda * dtSize(config.params.base.dtIn0);
        kTail := RoundUp(kTail, config.params.vnniFactor);
        lda := kTail;
        var key := CopyAKey(config.params.base.isa, config.params.base.dtIn0, config.K,
                            config.params.weiKBlk, kTail, copyASrcStride, lda);
        compiled := compiled.(copyAKernel := Some(key));
      }
      compiled := compiled.(tailKernel := Some(BrgemmKernel(BrgemmKey(config, kTail, lda, beta))));
    }
  }
}
