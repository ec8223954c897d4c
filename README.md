# AMX BRGEMM kernel executor: K blocking plan

This project models the integer logic of OpenVINO's AMX BRGEMM kernel executor
for the CPU plugin's snippets (`brgemm_amx.cpp`). The executor runs a
matrix multiplication C = A·B over a reduction dimension K. It does this with oneDNN
BRGEMM kernels that handle K in blocks of `wei_K_blk`.

- `compile_kernel` splits K into a body and a tail. The body is a whole number of
  blocks; the tail is `K % wei_K_blk`. It builds a body kernel when the body is
  non-empty and a tail kernel when the tail is non-empty. When the tail is not a
  multiple of the VNNI factor, it also builds a copy-A kernel. That kernel repacks the
  tail of A, padded up to the VNNI factor, into a scratch buffer. The tail kernel
  then uses the padded K as both its K and its LDA. Once a body kernel has written
  C, the tail kernel accumulates onto it (beta = 1).
- `execute` replays the same split. It runs the body kernel on A and B as given.
  For the tail, it moves the A offset by `K_body` elements of input 0 and the B
  offset by `K_body · LDB` elements of input 1. When copy-A is needed, it repacks
  A into the scratch buffer at `SCRATCH_BYTE_SIZE` and reads the tail from there.
  Post-ops are applied only by the last BRGEMM call.
- `configure_tiles_if_needed` keeps an `amx_tile_config_t` record of the (M, N, K)
  last configured. It reloads the tile palette only when these change. `execute`
  configures the tiles before each BRGEMM call. It passes the unpadded tail K
  here, even when the tail kernel was built for the padded K.
- The cache keys compare every field. `BrgemmCopyAKey` hashes exactly the seven
  fields it compares. `StaticParams` hashes only the two fields it adds to the base
  comparison, `wei_K_blk` and `vnni_factor`. The base parameters' own hash is
  computed outside this file and is not modelled.

Modules, one per concern of the source file:

- `CppArith` (`cpp_arith.dfy`): C++'s truncating `%`, `rnd_up`, and the
  division facts they need.
- `AmxConfig` (`amx_config.dfy`): the configuration, `need_copy_a`, and the keys
  with their equality and hashes.
- `AmxCompile` (`amx_compile.dfy`): the K split, the kernel plan, and
  `compile_kernel`.
- `AmxExecute` (`amx_execute.dfy`): the tile-configuration record, `execute`, and
  the trace of the kernel calls it makes.

The kernel cache is a pure function from key to kernel, so a built kernel is
identified by the key it was built from. Pointers are integer byte offsets.
Foreign kernel invocations become a returned trace of `KernelCall` values. Each
palette load becomes an entry in a history kept on the tile record. Each BRGEMM
call in the trace carries the tile record as the kernel finds it, so the trace
shows that the tiles were configured before the call.

`compile_kernel` fills a freshly allocated `BrgemmAMXCompiledKernel` slot by slot.
No other code can see that object before it is returned, so the model builds it
as a value that the method updates step by step.

## Model

| member | source | states |
|---|---|---|
| CppArith.CRem | src/plugins/intel_cpu/src/emitters/snippets/x64/kernel_executors/brgemm_amx.cpp:186 | The C++ remainder: for a non-negative dividend it lies in [0, b) and equals the Euclidean one. For a negative dividend it lies in (-b, 0]. The dividend minus the remainder is always a multiple of b. |
| CppArith.RoundUp | src/plugins/intel_cpu/src/emitters/snippets/x64/kernel_executors/brgemm_amx.cpp:203 | `rnd_up(x, m)` is a multiple of m in [x, x + m). |
| CppArith.RoundUpBounds | src/plugins/intel_cpu/src/emitters/snippets/x64/kernel_executors/brgemm_amx.cpp:203 | `div_up(x, m) * m` is at least x, less than x + m, and a multiple of m. |
| AmxConfig.StaticParamsEq | src/plugins/intel_cpu/src/emitters/snippets/x64/kernel_executors/brgemm_amx.cpp:74-76 | `StaticParams::operator==` holds exactly when all fields are equal: the base parameters, `wei_K_blk` and `vnni_factor`. |
| AmxConfig.StaticParamsHash | src/plugins/intel_cpu/src/emitters/snippets/x64/kernel_executors/brgemm_amx.cpp:78-83 | `compute_hash` starts from seed 0 and applies `hash_combine` to `wei_K_blk` and then to `vnni_factor`: exactly the two fields `operator==` adds to the base comparison. |
| AmxConfig.StaticParamsEqualHash | src/plugins/intel_cpu/src/emitters/snippets/x64/kernel_executors/brgemm_amx.cpp:74-83 | For any `hash_combine`, parameters equal under `operator==` have equal `compute_hash`. |
| AmxConfig.NeedCopyA | src/plugins/intel_cpu/src/emitters/snippets/x64/kernel_executors/brgemm_amx.cpp:85-87 | For K ≥ 0, copy-A is needed exactly when K is not a multiple of the VNNI factor. It is never needed for K ≤ 0. |
| AmxConfig.RoundedTailNeedsNoCopyA | src/plugins/intel_cpu/src/emitters/snippets/x64/kernel_executors/brgemm_amx.cpp:201-204 | The tail rounded up to the VNNI factor needs no copy-A. It lies in [K, K + vnni). It equals K when K needed no copy-A. |
| AmxConfig.CopyAKeyEq | src/plugins/intel_cpu/src/emitters/snippets/x64/kernel_executors/brgemm_amx.cpp:131-133 | `BrgemmCopyAKey::operator==` holds exactly when all seven fields are equal. |
| AmxConfig.CopyAKeyHash | src/plugins/intel_cpu/src/emitters/snippets/x64/kernel_executors/brgemm_amx.cpp:120-130 | `hash()` starts from seed 0 and applies `hash_combine` once per field, in the order isa, dt, K, K_blk, K_tail, src_stride, LDA: the seven fields `operator==` compares. |
| AmxConfig.CopyAKeyEqualHash | src/plugins/intel_cpu/src/emitters/snippets/x64/kernel_executors/brgemm_amx.cpp:120-133 | For any `hash_combine`, keys equal under `operator==` have equal `hash()`. |
| AmxCompile.SplitK | src/plugins/intel_cpu/src/emitters/snippets/x64/kernel_executors/brgemm_amx.cpp:186-187 | Body plus tail is K, and the body is a multiple of `wei_K_blk`. For K ≥ 0, 0 ≤ tail < `wei_K_blk` and body ≥ 0. For K < 0, both are non-positive. |
| AmxCompile.SplitKUnique | src/plugins/intel_cpu/src/emitters/snippets/x64/kernel_executors/brgemm_amx.cpp:186-187 | For K ≥ 0, the split is the only decomposition into a block multiple and a tail shorter than a block. |
| AmxCompile.BodyDiffersFromTail | src/plugins/intel_cpu/src/emitters/snippets/x64/kernel_executors/brgemm_amx.cpp:312-316 | When both parts run, the two K values differ: tail < `wei_K_blk` ≤ body for K ≥ 0, and body ≤ -`wei_K_blk` < tail for K < 0. |
| AmxCompile.BrgemmKey | src/plugins/intel_cpu/src/emitters/snippets/x64/kernel_executors/brgemm_amx.cpp:153-157 | The key has the given K, LDA and beta. Every other field (M, N, LDB, LDC, the static parameters, emptiness) is the configuration's own. |
| AmxCompile.KernelPlan | src/plugins/intel_cpu/src/emitters/snippets/x64/kernel_executors/brgemm_amx.cpp:141-222 | An empty config builds nothing. Otherwise a body kernel is built iff body ≠ 0, a tail kernel iff tail ≠ 0, and copy-A iff tail ≠ 0 and `need_copy_a(tail)`. The body kernel uses the config's LDA and beta. The tail uses beta 1 after a body and the config's beta otherwise. Without copy-A the tail keeps the unrounded tail and the config's LDA. With copy-A, the tail's K and LDA are the tail padded into (tail, tail + vnni), a multiple of vnni needing no copy-A. The copy-A key's stride is LDA × `dnnl_data_type_size(dt_in0)`. All other fields stay as in the config. |
| AmxCompile.CompileKernel | src/plugins/intel_cpu/src/emitters/snippets/x64/kernel_executors/brgemm_amx.cpp:141-222 | The step-by-step construction (beta, K_tail and LDA reassigned) yields exactly the plan above. |
| AmxExecute.ConfigureTiles | src/plugins/intel_cpu/src/emitters/snippets/x64/kernel_executors/brgemm_amx.cpp:269-277 | Afterwards the record describes (M, N, K). A compatible record is left unchanged. Otherwise exactly the given palette is appended to the load history. |
| AmxExecute.CompatibleIffNoReload | src/plugins/intel_cpu/src/emitters/snippets/x64/kernel_executors/brgemm_amx.cpp:269-277 | The `compatible` test holds exactly when `configure_tiles_if_needed` leaves the record and the tile unit unchanged: it reloads a palette precisely for an incompatible record. |
| AmxExecute.ConfigureTilesIdempotent | src/plugins/intel_cpu/src/emitters/snippets/x64/kernel_executors/brgemm_amx.cpp:269-277 | A second call with the same (M, N, K) changes nothing and loads no palette. |
| AmxExecute.ConfigureTilesIfNeeded | src/plugins/intel_cpu/src/emitters/snippets/x64/kernel_executors/brgemm_amx.cpp:264-278 | A null record is untouched. Otherwise the record's new state is `ConfigureTiles` of its old state: M, N and K are overwritten, and the palette is loaded only when they differed. |
| AmxExecute.CompiledKernelServesExecute | src/plugins/intel_cpu/src/emitters/snippets/x64/kernel_executors/brgemm_amx.cpp:312-347 | For a non-empty config, the compiled plan holds every kernel `execute` dereferences. The body kernel's K is the body, and the tail kernel's K is the tail, or the tail padded up when copy-A runs. |
| AmxExecute.ExecutionTrace | src/plugins/intel_cpu/src/emitters/snippets/x64/kernel_executors/brgemm_amx.cpp:315-361 | One BRGEMM call per non-empty part, plus one copy-A call when needed. When any call is made, post-ops are applied by exactly one call: the last, a BRGEMM call. The body call uses A and B as given. The tail call uses B + body·LDB·size(dt_in1), and A + body·size(dt_in0), or the scratch area at `SCRATCH_BYTE_SIZE` after copy-A. The copy-A call repacks the unpadded tail from A + body·size(dt_in0) into that area. Every BRGEMM call writes C and passes the scratch buffer and the post-ops arguments through unchanged. With a tile record, each BRGEMM call finds it configured for (M, N, its part's K): either it already was, or that call's palette has just been loaded. The tail's K here is the unpadded tail. |
| AmxExecute.ExecuteTiles | src/plugins/intel_cpu/src/emitters/snippets/x64/kernel_executors/brgemm_amx.cpp:318-352 | Nothing changes when no part runs. Afterwards the record describes the last part's (M, N, K). At most two palettes are appended to the load history, and earlier loads are kept. |
| AmxExecute.TailReloadsAfterBody | src/plugins/intel_cpu/src/emitters/snippets/x64/kernel_executors/brgemm_amx.cpp:318-352 | When both parts run, the tail kernel's palette is always loaded after the body's configuration. |
| AmxExecute.RepeatedExecuteTiles | src/plugins/intel_cpu/src/emitters/snippets/x64/kernel_executors/brgemm_amx.cpp:318-352 | Executing the same config again loads nothing when only one part runs. When both run, it reloads both palettes. |
| AmxExecute.RepeatedExecuteLoadsOnce | src/plugins/intel_cpu/src/emitters/snippets/x64/kernel_executors/brgemm_amx.cpp:264-278 | Over any number n ≥ 1 of successive executions with one config, earlier loads are kept. Only the first execution loads palettes when one part runs. When both parts run, each further execution loads exactly two. |
| AmxExecute.Execute | src/plugins/intel_cpu/src/emitters/snippets/x64/kernel_executors/brgemm_amx.cpp:302-362 | The calls made are exactly `ExecutionTrace` from the record's old state, so each tile configuration happens before its BRGEMM call. The tile record's new state is exactly `ExecuteTiles` of its old state. |

## Left out

- The register-assignment pass (`assign_registers.hpp`) exists only as a class declaration with no algorithm. It is not part of this model.
- oneDNN and Xbyak code is foreign: `create_brgemm_kernel`, `create_brgemm_matmul_copy_a` (and the `brgemm_matmul_conf_t` that `create_brgemm_copy_a_kernel` fills at lines 224-256), `amx_tile_configure`, `execute_brgemm_kernel`, and the copy-A functor call. Kernels are their keys, palette loads are history entries, and calls are trace entries. The copy-A context's constant fields (null compensation pointers, `current_K_start = 0`) are not recorded.
- The `MultiCache` lookup and the weak-pointer lock with its assertion (lines 150-151) are left out: the cache is a pure function from key to kernel. Sharing, eviction and lifetime are out of scope.
- `hash_combine` is a caller-supplied function. Only "equal keys give equal hashes" is stated.
- `is_empty()` (base configuration), `update`, `rnd_up`, `compute_vnni_factor`, `dnnl_data_type_size`, `BrgemmCPU::SCRATCH_BYTE_SIZE` and `BrgemmBaseKernelExecutor::update_config` are defined outside this file. They are not part of this model:
  - emptiness is a flag of the configuration;
  - `rnd_up` is taken as `div_up(x, m) * m`;
  - `dnnl_data_type_size` is a function passed in by the caller, used for both the copy-A stride and the tail offsets;
  - the scratch offset is a parameter;
  - the VNNI factor is a field of the static parameters.
- The base configuration's `update(M, N, K, LDA, LDB, LDC, beta)`, called by the `brgemm_key` lambda at line 155, is defined outside this file. The model takes it to overwrite exactly those seven fields and keep everything else, so `BrgemmKey` replaces K, LDA and beta and keeps the rest. Any recomputed hash is not modelled. Emptiness stays an independent flag: nothing ties a non-empty configuration to non-zero M, N or K.
- The `BrgemmAMXKernelConfig` and `StaticParams` constructors (lines 47-72) only store the values modelled in `StaticParams`. Caching the hash in `m_hash` is not modelled.
- StaticParamsEq: the base parameters' `operator==` is not in this file, so the model takes it as equality of all base fields.
- `amx_tile_config_t` holds only M, N and K. The model's record also keeps the palettes loaded through it, standing for the state of the tile unit that `amx_tile_configure` changes.
- `beta` is a `float` that is only copied or set to 1. It is modelled as a `real` with no arithmetic.
- `dnnl_dim_t` is a 64-bit integer. The products `LDA · size`, `K_body · size` and `K_body · LDB · size` are unbounded here, so 64-bit overflow is not modelled.
- `execute` asserts that the executor and its compiled kernel are non-null (lines 303 and 306); the model's types make both non-null. A missing body or tail kernel is dereferenced without a check (lines 319-327 and 347-353). A missing copy-A kernel is checked by `OV_CPU_JIT_EMITTER_ASSERT` at line 298, which raises an error after the body call has already run. `Execute` requires `KernelsPresent`, so this error path is not modelled. `CompiledKernelServesExecute` shows that compiling a non-empty config provides all three kernels, so the error cannot arise for a compiled configuration.
- Both `execute_brgemm_kernel` calls pass a constant `false` as their seventh argument (lines 333 and 359). That function is defined outside this file, and the constant is not recorded in `BrgemmCall`.
- The `SNIPPETS_DEBUG_CAPS` `to_string` is debug formatting.
