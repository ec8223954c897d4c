/** `BrgemmAMXKernelExecutor::execute` and `configure_tiles_if_needed`: the
    same K split as at compile time decides which kernels run; the tail call
    reads the source and the weights past the body, from a repacked copy in
    the scratch buffer when copy-A runs; post-ops are applied on the last
    BRGEMM call only. Before each BRGEMM call the AMX tile configuration is
    reloaded unless the cached (M, N, K) already match. Pointers are byte
    offsets; the foreign kernel calls are recorded as a trace, each BRGEMM
    call with the tile record as the kernel finds it. */
module AmxExecute {
  import opened CppArith
  import opened AmxConfig
  import opened AmxCompile

  /** A tile configuration record, with the palettes loaded while it was current. */
  datatype TileState = TileState(M: int, N: int, K: int, palettes: seq<BrgemmKernel>)

  /** `amx_tile_config_t`: the (M, N, K) of the last palette loaded into the
      tile unit. `palettes` stands for the tile unit itself: the palettes
      passed to `amx_tile_configure` while this record was in use, oldest first. */
  class AmxTileConfig {
    var M: int
    var N: int
    var K: int
    var palettes: seq<BrgemmKernel>

    constructor (M: int, N: int, K: int)
      ensures State() == TileState(M, N, K, [])
    {
      this.M, this.N, this.K := M, N, K;
      palettes := [];
    }

    function State(): TileState
      reads this
    {
      TileState(M, N, K, palettes)
    }
  }

  /** The lambda `compatible`: the record already describes (M, N, K). */
  predicate Compatible(t: TileState, M: int, N: int, K: int)
  {
    t.M == M && t.N == N && t.K == K
  }

  /** The effect of `configure_tiles_if_needed` on a non-null record: it ends
      up describing (M, N, K), and `palette` is loaded exactly when the
      record did not already describe them. */
  function ConfigureTiles(t: TileState, palette: BrgemmKernel, M: int, N: int, K: int): (r: TileState)
    ensures Compatible(r, M, N, K)
    ensures Compatible(t, M, N, K) ==> r == t
    ensures !Compatible(t, M, N, K) ==> r.palettes == t.palettes + [palette]
  {
    if Compatible(t, M, N, K) then t
    else TileState(M, N, K, t.palettes + [palette])
  }

  /** `compatible` is exactly the condition under which
      `configure_tiles_if_needed` leaves the record and the tile unit alone. */
  lemma CompatibleIffNoReload(t: TileState, p: BrgemmKernel, M: int, N: int, K: int)
    ensures Compatible(t, M, N, K) <==> ConfigureTiles(t, p, M, N, K) == t
  {
    if !Compatible(t, M, N, K) {
      assert |ConfigureTiles(t, p, M, N, K).palettes| == |t.palettes| + 1;
    }
  }

  /** A second call with the same (M, N, K) loads nothing, whatever its palette. */
  lemma ConfigureTilesIdempotent(t: TileState, p: BrgemmKernel, q: BrgemmKernel, M: int, N: int, K: int)
    ensures ConfigureTiles(ConfigureTiles(t, p, M, N, K), q, M, N, K) == ConfigureTiles(t, p, M, N, K)
  {
  }

  /** `configure_tiles_if_needed`: nothing happens for a null record;
      otherwise (M, N, K) are overwritten and the palette reloaded only when
      they differ. */
  method ConfigureTilesIfNeeded(config: AmxTileConfig?, palette: BrgemmKernel, M: int, N: int, K: int)
    modifies config
    ensures config != null ==> config.State() == ConfigureTiles(old(config.State()), palette, M, N, K)
  {
    if config != null && !(config.M == M && config.N == N && config.K == K) {
      config.M := M;
      config.N := N;
      config.K := K;
      config.palettes := config.palettes + [palette];
    }
  }

  /** The state of a possibly null tile record. */
  function Tiles(config: AmxTileConfig?): (r: Option<TileState>)
    reads config
    ensures r.Some? <==> config != null
  {
    if config == null then None else Some(config.State())
  }

  /** `jit_snippets_call_args` as byte offsets: source A, weights B, output C,
      the scratch buffer, the binary post-ops arguments, and the tile record. */
  datatype CallArgs = CallArgs(
    A: int, B: int, C: int, scratch: int, postOpsArgs: int, amxTileConfig: AmxTileConfig?)

  /** A call into foreign kernel code. A BRGEMM call also records `tiles`,
      the tile record as the kernel finds it (`None` when there is none). */
  datatype KernelCall =
    | CopyACall(copyA: CopyAKey, src: int, trSrc: int, M: int, K: int)
    | BrgemmCall(kernel: BrgemmKernel, src: int, wei: int, dst: int, scratch: int,
                 postOpsArgs: int, applyPostOps: bool, tiles: Option<TileState>)

  /** Every kernel `execute` dereferences for `config` is present. */
  predicate KernelsPresent(config: KernelConfig, compiled: CompiledKernel)
    requires config.Valid()
  {
    && (SplitK(config).body != 0 ==> compiled.bodyKernel.Some?)
    && (SplitK(config).tail != 0 ==> compiled.tailKernel.Some?)
    && (TailNeedsCopyA(config) ==> compiled.copyAKernel.Some?)
  }

  /** Compiling a non-empty configuration builds every kernel `execute` then
      runs, with the same split: the body kernel covers the body and the
      tail kernel at least the tail. */
  lemma CompiledKernelServesExecute(config: KernelConfig, dtSize: DataTypeSize)
    requires config.Valid() && !config.empty
    ensures KernelsPresent(config, KernelPlan(config, dtSize))
    ensures SplitK(config).body != 0 ==>
      KernelPlan(config, dtSize).bodyKernel.value.key.K == SplitK(config).body
    ensures SplitK(config).tail != 0 ==>
      var tailK := KernelPlan(config, dtSize).tailKernel.value.key.K;
      tailK == SplitK(config).tail || (TailNeedsCopyA(config) && tailK > SplitK(config).tail)
  {
  }

  /** The byte offset of the source for the tail call, before any repacking:
      `K_body` elements of input 0 past A. */
  function TailSrc(config: KernelConfig, args: CallArgs, dtSize: DataTypeSize): (offset: int)
    requires config.Valid()
  {
    args.A + SplitK(config).body * dtSize(config.params.base.dtIn0)
  }

  /** The byte offset of the weights for the tail call: `K_body` rows of
      input 1 past B. */
  function TailWei(config: KernelConfig, args: CallArgs, dtSize: DataTypeSize): (offset: int)
    requires config.Valid()
  {
    args.B + (SplitK(config).body * config.LDB) * dtSize(config.params.base.dtIn1)
  }

  /** The tile record after the body's configuration; unchanged without a body. */
  function BodyTiles(t: TileState, config: KernelConfig, compiled: CompiledKernel): (r: TileState)
    requires config.Valid() && KernelsPresent(config, compiled)
  {
    var s := SplitK(config);
    if s.body != 0 then ConfigureTiles(t, compiled.bodyKernel.value, config.M, config.N, s.body) else t
  }

  /** The kernel calls `execute` makes, in order, starting from a tile
      record in state `tiles` (`None` when there is no record). */
  function ExecutionTrace(config: KernelConfig, compiled: CompiledKernel, args: CallArgs,
                          tiles: Option<TileState>, dtSize: DataTypeSize,
                          scratchByteSize: int): (calls: seq<KernelCall>)
    requires config.Valid() && KernelsPresent(config, compiled)
    // one BRGEMM call per non-empty part, plus the repacking when needed
    ensures |calls| == (if SplitK(config).body != 0 then 1 else 0)
                     + (if TailNeedsCopyA(config) then 1 else 0)
                     + (if SplitK(config).tail != 0 then 1 else 0)
    // post-ops are applied once, by the last call, which is a BRGEMM call
    ensures forall i :: 0 <= i < |calls| ==>
      (calls[i].BrgemmCall? && calls[i].applyPostOps <==> i == |calls| - 1)
    ensures calls != [] ==> calls[|calls| - 1].BrgemmCall?
    // every BRGEMM call writes to C, passes the scratch buffer and the post-ops
    // arguments through, and sees a tile record exactly when there is one
    ensures forall i :: 0 <= i < |calls| && calls[i].BrgemmCall? ==>
      && calls[i].dst == args.C && calls[i].scratch == args.scratch
      && calls[i].postOpsArgs == args.postOpsArgs
      && (calls[i].tiles.Some? <==> tiles.Some?)
    // the body runs first, on the arguments as given
    ensures SplitK(config).body != 0 ==>
      && calls[0].BrgemmCall? && calls[0].kernel == compiled.bodyKernel.value
      && calls[0].src == args.A && calls[0].wei == args.B
    // ... on tiles already configured for (M, N, K_body): either they were,
    // or the body's palette has just been loaded
    ensures SplitK(config).body != 0 && tiles.Some? ==>
      var seen := calls[0].tiles.value;
      && Compatible(seen, config.M, config.N, SplitK(config).body)
      && (seen == tiles.value || seen.palettes == tiles.value.palettes + [compiled.bodyKernel.value])
      && seen == BodyTiles(tiles.value, config, compiled)
    // the tail runs last, past the body, from the scratch copy when repacked
    ensures SplitK(config).tail != 0 ==>
      var last := calls[|calls| - 1];
      && last.kernel == compiled.tailKernel.value
      && last.wei == TailWei(config, args, dtSize)
      && last.src == (if TailNeedsCopyA(config) then args.scratch + scratchByteSize
                      else TailSrc(config, args, dtSize))
    // ... on tiles configured for (M, N, K_tail), the unpadded tail: either
    // they were after the body, or the tail's palette has just been loaded
    ensures SplitK(config).tail != 0 && tiles.Some? ==>
      var seen, before := calls[|calls| - 1].tiles.value, BodyTiles(tiles.value, config, compiled);
      && Compatible(seen, config.M, config.N, SplitK(config).tail)
      && (seen == before || seen.palettes == before.palettes + [compiled.tailKernel.value])
      && seen == ExecuteTiles(tiles.value, config, compiled)
    // the repacking copies the unpadded tail from past the body into the scratch area
    ensures TailNeedsCopyA(config) ==>
      calls[|calls| - 2] == CopyACall(compiled.copyAKernel.value, TailSrc(config, args, dtSize),
                                      args.scratch + scratchByteSize, config.M, SplitK(config).tail)
  {
    var s := SplitK(config);
    var bodyTiles := if tiles.Some? then Some(BodyTiles(tiles.value, config, compiled)) else None;
    var tailTiles := if tiles.Some? then Some(ExecuteTiles(tiles.value, config, compiled)) else None;
    var bodyCalls :=
      if s.body != 0 then
        [BrgemmCall(compiled.bodyKernel.value, args.A, args.B, args.C, args.scratch,
                    args.postOpsArgs, s.tail == 0, bodyTiles)]
      else [];
    var trSrc := args.scratch + scratchByteSize;
    var copyCalls :=
      if TailNeedsCopyA(config) then
        [CopyACall(compiled.copyAKernel.value, TailSrc(config, args, dtSize), trSrc, config.M, s.tail)]
      else [];
    var tailCalls :=
      if s.tail != 0 then
        [BrgemmCall(compiled.tailKernel.value,
                    if TailNeedsCopyA(config) then trSrc else TailSrc(config, args, dtSize),
                    TailWei(config, args, dtSize), args.C, args.scratch, args.postOpsArgs, true, tailTiles)]
      else [];
    bodyCalls + copyCalls + tailCalls
  }

  /** The effect of `execute` on a non-null tile record: a configuration
      before the body call and another before the tail call. The tail's K is
      the unpadded tail even when its kernel was built for the padded one. */
  function ExecuteTiles(t: TileState, config: KernelConfig, compiled: CompiledKernel): (r: TileState)
    requires config.Valid() && KernelsPresent(config, compiled)
    ensures SplitK(config).body == 0 && SplitK(config).tail == 0 ==> r == t
    ensures SplitK(config).tail != 0 ==> Compatible(r, config.M, config.N, SplitK(config).tail)
    ensures SplitK(config).tail == 0 && SplitK(config).body != 0 ==>
      Compatible(r, config.M, config.N, SplitK(config).body)
    ensures |t.palettes| <= |r.palettes| <= |t.palettes| + 2
    ensures r.palettes[..|t.palettes|] == t.palettes
  {
    var s, afterBody := SplitK(config), BodyTiles(t, config, compiled);
    if s.tail != 0 then ConfigureTiles(afterBody, compiled.tailKernel.value, config.M, config.N, s.tail)
    else afterBody
  }

  /** When both parts run, the tail's palette is always loaded: the body's
      K can never equal the tail's. */
  lemma TailReloadsAfterBody(t: TileState, config: KernelConfig, compiled: CompiledKernel)
    requires config.Valid() && KernelsPresent(config, compiled)
    requires SplitK(config).body != 0 && SplitK(config).tail != 0
    ensures ExecuteTiles(t, config, compiled).palettes ==
      ConfigureTiles(t, compiled.bodyKernel.value, config.M, config.N, SplitK(config).body).palettes
      + [compiled.tailKernel.value]
  {
    BodyDiffersFromTail(config);
  }

  /** Running the same configuration again on the same record reloads
      nothing when one part runs, and both palettes when both parts run. */
  lemma RepeatedExecuteTiles(t: TileState, config: KernelConfig, compiled: CompiledKernel)
    requires config.Valid() && KernelsPresent(config, compiled)
    ensures var once := ExecuteTiles(t, config, compiled);
      ExecuteTiles(once, config, compiled).palettes ==
        if SplitK(config).body != 0 && SplitK(config).tail != 0
        then once.palettes + [compiled.bodyKernel.value, compiled.tailKernel.value]
        else once.palettes
  {
    var s := SplitK(config);
    if s.body != 0 && s.tail != 0 {
      var once := ExecuteTiles(t, config, compiled);
      BodyDiffersFromTail(config);
      assert !Compatible(once, config.M, config.N, s.body);
      TailReloadsAfterBody(once, config, compiled);
    }
  }

  /** The tile record after `n` successive `execute` calls with the same
      configuration. */
  function ExecuteTilesRepeated(t: TileState, config: KernelConfig, compiled: CompiledKernel, n: nat): (r: TileState)
    requires config.Valid() && KernelsPresent(config, compiled)
    decreases n
  {
    if n == 0 then t
    else ExecuteTiles(ExecuteTilesRepeated(t, config, compiled, n - 1), config, compiled)
  }

  /** Over any number of successive calls, only the first loads a palette
      when one part runs; when both run, every further call loads two. */
  lemma {:induction false} RepeatedExecuteLoadsOnce(t: TileState, config: KernelConfig,
                                                    compiled: CompiledKernel, n: nat)
    requires config.Valid() && KernelsPresent(config, compiled) && n >= 1
    ensures var once, all := ExecuteTiles(t, config, compiled), ExecuteTilesRepeated(t, config, compiled, n);
      && |once.palettes| <= |all.palettes| && all.palettes[..|once.palettes|] == once.palettes
      && if SplitK(config).body != 0 && SplitK(config).tail != 0
         then |all.palettes| == |once.palettes| + 2 * (n - 1)
         else all.palettes == once.palettes
  {
    if n > 1 {
      RepeatedExecuteLoadsOnce(t, config, compiled, n - 1);
      RepeatedExecuteTiles(ExecuteTilesRepeated(t, config, compiled, n - 2), config, compiled);
    }
  }

  /** `execute`: replays the split, reconfigures the tiles before each BRGEMM
      call, and moves the source and weight offsets past the body for the tail. */
  method Execute(config: KernelConfig, compiled: CompiledKernel, args: CallArgs,
                 dtSize: DataTypeSize, scratchByteSize: int) returns (calls: seq<KernelCall>)
    requires config.Valid() && KernelsPresent(config, compiled)
    modifies args.amxTileConfig
    ensures calls == ExecutionTrace(config, compiled, args, old(Tiles(args.amxTileConfig)),
                                    dtSize, scratchByteSize)
    ensures args.amxTileConfig != null ==>
      args.amxTileConfig.State() == ExecuteTiles(old(args.amxTileConfig.State()), config, compiled)
  {
    var srcPtr := args.A;
    var weiPtr := args.B;
    var scratch := args.scratch;

    var kTail := CRem(config.K, config.params.weiKBlk);
    var kBody := config.K - kTail;

    var executeMainBody := kBody != 0;
    var executeTail := kTail != 0;
    calls := [];

    if executeMainBody {
      var bodyKernel := compiled.bodyKernel.value;
      ConfigureTilesIfNeeded(args.amxTileConfig, bodyKernel, config.M, config.N, kBody);
      // post-ops belong to the last call, so not here when a tail follows
      var applyPostOps := !executeTail;
      calls := calls + [BrgemmCall(bodyKernel, srcPtr, weiPtr, args.C, scratch, args.postOpsArgs,
                                   applyPostOps, Tiles(args.amxTileConfig))];
    }

    if executeTail {
      srcPtr := srcPtr + kBody * dtSize(config.params.base.dtIn0);
      weiPtr := weiPtr + (kBody * config.LDB) * dtSize(config.params.base.dtIn1);
      if NeedCopyA(config, kTail) {
        var trSrc := scratch + scratchByteSize;
        calls := calls + [CopyACall(compiled.copyAKernel.value, srcPtr, trSrc, config.M, kTail)];
        srcPtr := trSrc;
      }
      var tailKernel := compiled.tailKernel.value;
      ConfigureTilesIfNeeded(args.amxTileConfig, tailKernel, config.M, config.N, kTail);
      calls := calls + [BrgemmCall(tailKernel, srcPtr, weiPtr, args.C, scratch, args.postOpsArgs,
                                   true, Tiles(args.amxTileConfig))];
    }
  }
}
