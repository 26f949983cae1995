/** Small things every component uses. */
module Common {

  datatype Option<+T> = None | Some(value: T)

  /** What a scheduler can be handed: a fiber to resume or a function to run in one. */
  datatype Task = FiberTask(f: nat) | CallTask(c: nat)

  /** `size_t`/`uint64_t` values; arithmetic on them wraps. */
  const TWO_TO_THE_64: int := 0x1_0000_0000_0000_0000

  type Word = x: int | 0 <= x < TWO_TO_THE_64 witness 0

  const ALL_ONES: Word := TWO_TO_THE_64 - 1

  function Add64(a: Word, b: Word): Word {
    if a + b < TWO_TO_THE_64 then a + b else a + b - TWO_TO_THE_64
  }

  function Sub64(a: Word, b: Word): Word {
    if a >= b then a - b else a - b + TWO_TO_THE_64
  }

  /** Both are the arithmetic of uint64_t. */
  lemma WordsWrap(a: Word, b: Word)
    ensures Add64(a, b) == (a + b) % TWO_TO_THE_64 && Sub64(a, b) == (a - b) % TWO_TO_THE_64
  {
    if a < b { assert (a - b + TWO_TO_THE_64) % TWO_TO_THE_64 == (a - b) % TWO_TO_THE_64; }
  }

  lemma ElementMoves(s: set<nat>, s': set<nat>, x: nat, stays: bool)
    requires s' == if stays then s + {x} else s - {x}
    ensures |s'| == |s| - (if x in s then 1 else 0) + (if stays then 1 else 0)
  {
    if x in s && stays { assert s' == s; }
    if x !in s && !stays { assert s' == s; }
  }
}
