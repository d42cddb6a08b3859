# strudel-libs random and ramp signals in Dafny

This project models the numeric core of `lib.mjs`, a helper library for the
Strudel live-coding environment. It covers:

- the deterministic, time-seeded pseudo-random signal engine:
  - `_str2seed` hashes a string into a 32-bit seed;
  - `_random` is an xorshift-style integer scrambler;
  - `time2seed` cuts continuous time into ticks and adds a process-wide salt;
  - `rngseed` overwrites that salt;
  - the `rng` and `looprng` signals compose all of these;
- the latch-based ramps `ramp`, `iramp`, `partrun` and `ipartrun`, each of
  which starts its clock the first time it is evaluated;
- `applyPats`;
- the first-occurrence filter inside `getPalette`.

How each piece is modelled:

- **Integers.** JavaScript numbers that pass through `| 0`, `>>> 0`, `<<`,
  `>>` and `^` are modelled as unbounded integers with explicit conversions.
  `ToInt32` and `ToUint32` live in `Int32`. The shift-and-xor steps act on
  `bv32` bit patterns (module `Xorshift`), and values are converted only at
  the boundary.
- **Remainder.** JavaScript's `%` truncates toward zero, so the result takes
  the sign of the dividend. It is written out explicitly: `Scrambler.Reduce`
  for integers and `TimeQuantizer.RealRem` for time.
- **Time.** Time is a `real`, and `Math.trunc` is `TimeQuantizer.Trunc`.
- **String hash.** `_str2seed` is a method with the source's loop. It is
  proved equal to the closed form: the UTF-8 bytes weighted by powers of 31,
  taken modulo 2^32.
- **Salt.** The module-level `salt` is a class, `SaltCell`. Its constructor
  hashes the default text, and `RngSeed` overwrites the salt.
- **Latch.** Each `latch` closure is an object of class `Latch.Latch` with
  its own `start` cell. The ramp bodies are pure functions of the elapsed
  time.
- **Signals.** `rng` and `looprng` are pure functions of salt, seed and time.
  They use the salt current at the moment of evaluation, as the source does.

## Model

| member | source | states |
|---|---|---|
| StringHash.Str2Seed | lib.mjs:45-52 | the loop with its per-step signed 32-bit wrap returns the UTF-8 bytes weighted by powers of 31 modulo 2^32 (`Hash`), a value in [0, 2^32), and 0 for the empty string |
| StringHash.HashBytes | lib.mjs:47-51 | the closed form of the loop over bytes: the weighted sum of the bytes by powers of 31 modulo 2^32, in [0, 2^32) and 0 for no bytes; `HashBytesSnoc` ties it to one loop step |
| StringHash.Hash | lib.mjs:45-52 | the closed form of `_str2seed`: the byte hash of the string's UTF-8 encoding, in [0, 2^32) and 0 for the empty string; `Str2Seed` is proved equal to it |
| StringHash.HashBytesSnoc | lib.mjs:48-50 | one more byte updates the hash by `h * 31 + b` modulo 2^32 |
| StringHash.StepWrap | lib.mjs:49-51 | wrapping to signed 32 bits after a step and reading the value unsigned at the end is the same as computing the step modulo 2^32 |
| StringHash.HashAppend | lib.mjs:45-52 | the hash of `s + t` is the hash of `s` continued over the bytes of `t` |
| Utf8.EncodeCharRoundTrip | lib.mjs:46 | the UTF-8 encoding of a code point decodes back to it |
| Utf8.EncodeChar | lib.mjs:46 | 1 to 4 bytes; 1 byte exactly below U+0080, 2 exactly in [U+0080, U+0800), 3 exactly in [U+0800, U+10000), otherwise 4, so no overlong form; the leading byte also fixes the length; every later byte is a continuation byte |
| Utf8.Encode | lib.mjs:46 | a string of n characters encodes to between n and 4n bytes |
| Utf8.EncodeAppend | lib.mjs:46 | encoding distributes over concatenation |
| Utf8.EncodeAscii | lib.mjs:46 | an ASCII string encodes to one byte per character, each equal to its code |
| Int32.ToInt32 | lib.mjs:49 | the bitwise-or-with-zero wrap is the signed 32-bit value congruent to x modulo 2^32, and the identity on that range |
| Int32.ToUint32 | lib.mjs:51 | `x >>> 0` is the value in [0, 2^32) congruent to x, and the identity on that range |
| Int32.UnsignedOfSigned | lib.mjs:49-51 | reading a signed wrap unsigned equals the unsigned wrap of the original |
| Int32.ToBits | lib.mjs:56-58 | the 32-bit pattern that `<<`, `>>` and `^` read from an integral operand (ToInt32 taken as bits); `ScrambleOfOne` evaluates it at 1 |
| Int32.FromBits | lib.mjs:56-58 | the signed number that `<<`, `>>` and `^` return for a 32-bit pattern, with the range and congruence of `ToInt32` |
| Scrambler.Reduce | lib.mjs:55 | `seed % 536870912` has magnitude below 2^29, the sign of the seed, is congruent to it, and is 0 exactly for multiples of 2^29 |
| Scrambler.Mix | lib.mjs:56-58 | the three shift-and-xor steps in the source's order; its content is stated by `Step13Invertible`, `Step17ClearsSign` and the reference value in `ScrambleOfOne` |
| Scrambler.Scramble | lib.mjs:54-59 | `_random` as a function: the mix of the reduced seed's 32-bit pattern, read back as a signed 32-bit value; it depends only on the reduced seed (`ScrambleOfReduced`), repeats every 2^29 on each side of 0 (`ScramblePeriodic`), sends multiples of 2^29 to 0 (`ScrambleOfMultiple`) and sends 1 to 270369 (`ScrambleOfOne`) |
| Scrambler.Random | lib.mjs:54-59 | the statements of `_random` compute `Scramble`, so the lemmas about `Scramble` hold of it; a multiple of 2^29 gives 0 |
| Scrambler.ReduceIdempotent | lib.mjs:55 | reducing twice is reducing once |
| Scrambler.ReducePeriodic | lib.mjs:55 | the truncating remainder repeats every 2^29 on each side of zero |
| Scrambler.ScrambleOfReduced | lib.mjs:55-58 | the scrambler depends only on the reduced seed |
| Scrambler.ScramblePeriodic | lib.mjs:55-58 | seeds of the same sign that differ by 2^29 scramble to the same value |
| Scrambler.ScrambleOfMultiple | lib.mjs:55-58 | every multiple of 2^29, 0 included, scrambles to 0 |
| Scrambler.ScrambleOfOne | lib.mjs:54-59 | seed 1 scrambles to 270369 |
| Scrambler.MixOfSignBit | lib.mjs:56-58 | pattern 0x40000 mixes to 0x8083C042: `<< 13` wraps bit 18 into the sign bit, and `>> 17` fills the vacated bits with ones |
| Scrambler.ReduceNegative | lib.mjs:55 | a negative seed that is not a multiple of 2^29 reduces to a negative number, outside the range the line's comment claims |
| Xorshift.Step13Invertible | lib.mjs:56 | the `(x << 13) ^ x` step has an inverse and so loses nothing |
| Xorshift.Step17ClearsSign | lib.mjs:57 | the `(a >> 17) ^ a` step always clears the sign bit |
| Xorshift.Sar | lib.mjs:57 | `>>`, the arithmetic right shift that fills with the sign bit; `Step17ClearsSign` depends on that fill |
| Xorshift.Step13 | lib.mjs:56 | `(seed << 13) ^ seed` on the 32-bit pattern; inverted by `UnStep13` (`Step13Invertible`) |
| Xorshift.Step17 | lib.mjs:57 | `(a >> 17) ^ a` with the arithmetic shift; its result never has the sign bit set (`Step17ClearsSign`) |
| Xorshift.Step5 | lib.mjs:58 | `(b << 5) ^ b` on the 32-bit pattern; with the other steps it sends 8193 to 270369 (`ScrambleOfOne`) |
| TimeQuantizer.SaltCell.constructor | lib.mjs:65 | the initial salt is the hash of the default text |
| TimeQuantizer.SaltCell.RngSeed | lib.mjs:66 | a string sets the salt to its hash, a number sets it to the number, and the new salt is returned |
| TimeQuantizer.Trunc | lib.mjs:67 | `Math.trunc`: the integer next to x on the side of 0 |
| TimeQuantizer.TimeToSeed | lib.mjs:67 | `time2seed`: the seed minus the salt is `t * 10000` rounded toward 0, at most it and more than it minus 1 for t >= 0, at least it and less than it plus 1 for t <= 0 |
| TimeQuantizer.RealRem | lib.mjs:70 | the truncating `%` on time: in [0, m) for non-negative x and in (-m, 0] for non-positive x, and x minus the result is a whole multiple of m; these fix the result uniquely |
| TimeQuantizer.TimeToSeedOnTick | lib.mjs:67 | every t >= 0 in the tick [k/10000, (k+1)/10000) gives the seed k + salt |
| TimeQuantizer.TimeToSeedOnNegativeTick | lib.mjs:67 | every t in the tick (-(k+1)/10000, -k/10000] before 0 gives the seed salt - k |
| TimeQuantizer.TimeToSeedZeroTick | lib.mjs:67 | the whole double-width tick (-1/10000, 1/10000) around 0 gives the salt itself |
| TimeQuantizer.TimeToSeedMonotone | lib.mjs:67 | later times never give smaller time seeds |
| RandomSignal.Rng | lib.mjs:68 | `rng(seed)` at time t: the scrambled sum of the time seed and the scrambled seed; its properties are the `Rng…` lemmas below |
| RandomSignal.LoopRng | lib.mjs:70 | `looprng(cycles, seed)` at time t: `rng` at the wrapped time `t % cycles`; its properties are the `LoopRng…` lemmas below |
| RandomSignal.RngConstantOnTick | lib.mjs:68 | `rng` takes one value on each tick from 0 on |
| RandomSignal.RngConstantOnNegativeTick | lib.mjs:68 | `rng` takes one value on each tick before 0 |
| RandomSignal.RngDefaultSeed | lib.mjs:68 | with the default seed 0, `rng` is the scrambled time seed alone |
| RandomSignal.RngSeedAliasing | lib.mjs:68 | seeds of the same sign that differ by 2^29 give the same `rng` signal, on the non-negative and on the non-positive side |
| RandomSignal.RngSaltSensitive | lib.mjs:65-68 | at t = 0 with seed 0, salt 0 gives 0 and salt 1 gives 270369 |
| RandomSignal.LoopRngPeriodic | lib.mjs:70 | for cycles > 0 and t >= 0, `looprng` repeats every `cycles` cycles |
| RandomSignal.LoopRngPeriodicNegative | lib.mjs:70 | for cycles > 0 and t + cycles <= 0, `looprng` repeats every `cycles` cycles too |
| RandomSignal.LoopRngFirstLoop | lib.mjs:68-70 | during its first loop, `looprng` equals `rng` with the same seed |
| RandomSignal.RealRemPeriodic | lib.mjs:70 | `(t + m) % m == t % m` for m > 0 and t >= 0 |
| RandomSignal.RealRemPeriodicNegative | lib.mjs:70 | `(t + m) % m == t % m` for m > 0 and t + m <= 0 |
| RandomSignal.RealRemSmall | lib.mjs:70 | `t % m == t` for t in [0, m) |
| RandomSignal.LoopRngAcrossZeroSameTick | lib.mjs:67-70 | with cycles = 0.00005 the times -0.00002 and 0.00003, one cycle apart on opposite sides of 0, give the same `looprng` value, because both wrapped times fall in the tick around 0 |
| RandomSignal.LoopTimeNotPeriodicAcrossZero | lib.mjs:70 | the wrapped time at -0.5 and at 0.5 (one cycle apart) give time seeds 10000 ticks apart |
| Wrappers.Option.GetOr | lib.mjs:18 | `x ?? d`: the wrapped value when there is one, else `d`; `Latch.Eval`'s ensures state the outcome for `start ?? t` |
| Latch.Latch.constructor | lib.mjs:15-16 | a new latch has its `start` cell undefined |
| Latch.Latch.Eval | lib.mjs:17-20 | `start` is written on the first evaluation only, and never changes afterwards; the first evaluation passes 0 to `f`, a later one passes `t - start` |
| Latch.IndependentRamps | lib.mjs:15-23 | two ramps keep separate origins: triggering one does not move the other's |
| Latch.Ramp | lib.mjs:23 | `ramp` is a fresh latch around `min(tau / cycles, 1)` |
| Latch.Iramp | lib.mjs:26 | `iramp` is a fresh latch around `max(1 - tau / cycles, 0)` |
| Latch.Partrun | lib.mjs:33 | `partrun` is a fresh latch around `min((tau % 1) / ratio, 1)` |
| Latch.Ipartrun | lib.mjs:40 | `ipartrun` is a fresh latch around `max(1 - (tau % 1) / ratio, 0)` |
| Latch.Min | lib.mjs:23-33 | `Math.min`: a lower bound of both arguments that equals one of them |
| Latch.Max | lib.mjs:26-40 | `Math.max`: an upper bound of both arguments that equals one of them |
| Latch.RampAt | lib.mjs:23 | the body of `ramp`, `min(tau / cycles, 1)`; its shape is stated by `RampShape`, `RampMonotone` and `RampBeforeTrigger` |
| Latch.IrampAt | lib.mjs:26 | the body of `iramp`, `max(1 - tau / cycles, 0)`; `IrampMirrorsRamp` and `IrampShape` state it |
| Latch.PartrunAt | lib.mjs:33 | the body of `partrun`, `min((tau % 1) / ratio, 1)`; `PartrunShape`, `PartrunCycleStart` and `PartrunPeriodic` state it |
| Latch.IpartrunAt | lib.mjs:40 | the body of `ipartrun`, `max(1 - (tau % 1) / ratio, 0)`; `IpartrunMirrorsPartrun` and `IpartrunShape` state it |
| Latch.RampShape | lib.mjs:23 | for cycles > 0 and tau >= 0: in [0, 1], 0 at tau = 0, tau / cycles until `cycles`, 1 from then on |
| Latch.RampMonotone | lib.mjs:23 | `ramp` never decreases |
| Latch.IrampMirrorsRamp | lib.mjs:23-26 | `iramp` is `1 - ramp` at every elapsed time |
| Latch.IrampShape | lib.mjs:26 | in [0, 1], 1 at tau = 0, 0 from `cycles` on |
| Latch.PartrunShape | lib.mjs:33 | for ratio > 0 and tau >= 0: in [0, 1], 1 when `tau % 1 >= ratio`, and `(tau % 1) / ratio` before that |
| Latch.PartrunCycleStart | lib.mjs:33 | `partrun` is 0 at each whole number of elapsed cycles |
| Latch.PartrunPeriodic | lib.mjs:33 | `partrun` repeats every cycle of elapsed time |
| Latch.IpartrunMirrorsPartrun | lib.mjs:33-40 | `ipartrun` is `1 - partrun` at every elapsed time |
| Latch.IpartrunShape | lib.mjs:40 | in [0, 1], and 0 when `tau % 1 >= ratio` |
| Latch.DivBounds | lib.mjs:23 | a non-negative time over a positive duration is non-negative, and reaches 1 exactly when the time reaches the duration |
| Latch.RampQueriedTwice | lib.mjs:15-23 | a ramp triggered at t0 and queried at t: 0 at the trigger; in [0, 1] for t >= t0 and 1 from t0 + cycles on; the negative `(t - t0) / cycles` for t < t0 |
| Latch.RampBeforeTrigger | lib.mjs:23 | at a negative elapsed time `ramp` is `tau / cycles`, below 0 |
| Patterns.ApplyPats | lib.mjs:114 | as long as `pats`; element i is `fs[i](pats[i])` when that function exists and returns something, and `pats[i]` otherwise |
| Patterns.ApplyOne | lib.mjs:114 | `fs[i]?.(p) ?? p` for one element; `ApplyPats`'s ensures spell out its two outcomes |
| Patterns.Slot | lib.mjs:114 | `fs[i]`, undefined past the end of `fs`; `ApplyPatsIgnoresSurplus` states that nothing past the patterns is used |
| Patterns.ApplyPatsNoFunctions | lib.mjs:114 | with no function in any slot the patterns come back unchanged |
| Patterns.ApplyPatsIgnoresSurplus | lib.mjs:114 | functions past the last pattern are never used |
| Patterns.ApplyPatsAppend | lib.mjs:114 | splitting the patterns splits the result, and the second half uses the functions from the split point on |
| Patterns.IndexOf | lib.mjs:88 | `indexOf`: -1 exactly when absent; otherwise the index of an equal element with none before it |
| Patterns.FirstStringsFrom | lib.mjs:88 | the `filter` callback from index k on; `FirstStringsFromMember`, `FirstStringsFromOrdered` and `PaletteSpec` state what it keeps and in what order |
| Patterns.FirstStringsFromMember | lib.mjs:88 | from index k on, the filter keeps a colour exactly when it occurs and first occurs at or after k |
| Patterns.FirstStringsFromOrdered | lib.mjs:88 | the filter lists what it keeps in the order of first occurrence |
| Patterns.PaletteSpec | lib.mjs:87-88 | over the whole colour list the filter keeps exactly the strings present, in order of first occurrence |
| Patterns.Palette | lib.mjs:88 | the palette holds exactly the strings among the colours, each once, in order of first occurrence |
| Patterns.PaletteOfDistinct | lib.mjs:88 | distinct strings pass through the filter unchanged |
| Patterns.PaletteIdempotent | lib.mjs:88 | filtering a palette a second time changes nothing |

## Notes on the source

- The comment on lib.mjs:55 gives the range of the reduced seed as
  [0, 2^29]. JavaScript's `%` keeps the sign of the dividend, so a negative
  seed (a negative salt, say) reduces to a value in (-2^29, 0]. The bound
  2^29 itself is never reached. The model follows the code
  (`Scrambler.Reduce`, `Scrambler.ReduceNegative`).
- `looprng` repeats with period `cycles` on each side of 0: for t >= 0
  (`RandomSignal.LoopRngPeriodic`) and for t + cycles <= 0
  (`RandomSignal.LoopRngPeriodicNegative`). When 0 lies strictly between t
  and t + cycles, `looprng` need not repeat. The wrapped time jumps there,
  because the truncating `%` returns negative times for negative t.
  `RandomSignal.LoopTimeNotPeriodicAcrossZero` shows that the wrapped time
  seeds at -0.5 and 0.5 differ by 10000 ticks, with `cycles = 1`. Differing
  time seeds need not give differing values, because the scrambler is not
  injective. Both wrapped times can also fall into the double-width tick
  around 0, and then the values agree
  (`RandomSignal.LoopRngAcrossZeroSameTick`).
- `Math.trunc` rounds toward 0, so before time 0 each tick of `time2seed` is
  (-(k+1)/10000, -k/10000]. The tick around 0, (-1/10000, 1/10000), is twice as
  wide as every other tick (`TimeQuantizer.TimeToSeedZeroTick`).
- A latch fixes `start` at the time of its first query. A later query at an
  earlier time, such as a pattern queried backwards or out of order, passes a
  negative elapsed time to the ramp body. `ramp` and `iramp` then leave the
  documented range [0, 1]: a ramp over 4 cycles triggered at 10 gives -0.5 at
  8 (`Latch.RampQueriedTwice`). `partrun` and `ipartrun` leave it too, because
  `%` of a negative time is negative. The range holds for every query at or
  after the trigger.
- `rngseed` stores any non-string argument as it is; nothing is rejected. The
  model takes the argument to be a string or an integer (`SeedArg`).
- The default seed 0 of `rng` scrambles to 0, and seeds of the same sign that
  differ by 2^29 give identical signals (`RandomSignal.RngDefaultSeed`,
  `RandomSignal.RngSeedAliasing`).
- The middle step of `_random` clears the sign bit, so the intermediate value
  `b` is never negative (`Xorshift.Step17ClearsSign`).

## Left out

- The host signal wrapper `signal(...)`, `.toBipolar()`, `.range()` and the
  `*2` bipolar variants (`ramp2`, `iramp2`, `partrun2`, `ipartrun2`, `rng2`,
  `looprng2`): these are definitions of the host framework, which is not part
  of this model. Signals are modelled as their value at a time.
- `hurlin`, `hurlin2` and `perlin`: they are built on the host's Perlin noise,
  which is not part of this model.
- `punchcardSignal`, `can`, `fadein`, `fadeout`, `bank`, `shush` and the
  self-import at the end of the file: registration and plumbing through host
  pattern machinery.
- The theme lookup of `getPalette` and `getThemePalette` through global host
  objects. Only the filter that keeps the first occurrence of each string is
  modelled. Non-string colours are `None`, and the colour type is generic:
  strings compare by value under `===`, so any type with equality stands for
  them.
- `utils/update_readme.js`: file I/O on the README, which is not part of this
  model.
- IEEE-754 doubles: time, `t * 10000`, `t / cycles` and `%` are exact reals.
  Rounding, infinities and the NaN that `cycles = 0` or `ratio = 0` would
  produce are not modelled; those arguments are excluded by `requires`.
- TimeQuantizer.SaltCell.RngSeed: non-integer, non-string arguments
  (fractions, objects, `undefined`) are not modelled. The salt is an integer.
- Utf8.Encode: lone surrogate code units, which `TextEncoder` replaces with
  U+FFFD, are not modelled. Every `char` is encoded as a code point of its
  own.
- Scrambler.Random: the signed 32-bit result is proved equal to the
  three-step composition, and its value is computed for seeds 0 and 1 only.
  The default salt's hash and other concrete values are not evaluated.
- Latch.Latch.Eval: evaluation order is that of the calls made; the host
  scheduler that decides when a signal is first queried is not modelled.
- Concurrency: evaluation is single-threaded.
