/**
Rotating the prompt-to-slot assignment: the comprehension in examples/common/run_helpers.py and the
slices in examples/llama3_8b/benchmark.py.
*/
module Rotation {

  /** Python's `%` with a positive modulus; Dafny's Euclidean remainder agrees with it there. */
  function Mod(a: int, n: nat): (r: nat)
    requires n > 0
    ensures r < n
  {
    a % n
  }

  lemma MulOrder(a: int, b: int, d: nat)
    ensures a > b ==> a * d >= b * d + d
  {
    if a > b {
      var k: nat := a - b - 1;
      assert k * d >= 0;
      assert a * d == (b + 1 + k) * d == b * d + d + k * d;
    }
  }

  lemma ModUnique(a: int, n: nat, q: int, r: int)
    requires n > 0 && 0 <= r < n && a == q * n + r
    ensures a / n == q && Mod(a, n) == r
  {
    var d := a / n - q;
    assert d * n == r - a % n;
    MulOrder(d, 0, n);
    MulOrder(0, d, n);
  }

  /** Reducing an intermediate term does not change the remainder. */
  lemma ModAdd(a: int, b: int, n: nat)
    requires n > 0
    ensures Mod(Mod(a, n) + b, n) == Mod(a + b, n)
  {
    var s := Mod(a, n) + b;
    assert a == (a / n) * n + a % n;
    assert s == (s / n) * n + s % n;
    assert a + b == (a / n + s / n) * n + Mod(s, n);
    ModUnique(a + b, n, a / n + s / n, Mod(s, n));
  }

  lemma ModSmall(a: int, n: nat)
    requires 0 <= a < n
    ensures Mod(a, n) == a
  {
    ModUnique(a, n, 0, a);
  }

  /** `rotate_prompts`: slot j of repeat r holds prompt (j + r) mod n. */
  function RotatePrompts<T>(prompts: seq<T>, repeat: int): (r: seq<T>)
    ensures |r| == |prompts|
  {
    seq(|prompts|, j requires 0 <= j < |prompts| => prompts[Mod(j + repeat, |prompts|)])
  }

  /** `_rotate`: two slices. */
  function Rotate<T>(items: seq<T>, amount: int): (r: seq<T>)
    requires items != []
    ensures |r| == |items|
  {
    var k := Mod(amount, |items|);
    items[k..] + items[..k]
  }

  /** The slot that holds prompt `i` in repeat `repeat`. */
  function SlotOf(i: int, repeat: int, n: nat): (slot: nat)
    requires n > 0
    ensures slot < n
  {
    Mod(i - repeat, n)
  }

  lemma SlotHoldsPrompt(i: nat, repeat: int, n: nat)
    requires i < n
    ensures Mod(SlotOf(i, repeat, n) + repeat, n) == i
  {
    ModAdd(i - repeat, repeat, n);
    ModSmall(i, n);
  }

  lemma PromptInSlot(j: nat, repeat: int, n: nat)
    requires j < n
    ensures SlotOf(Mod(j + repeat, n), repeat, n) == j
  {
    ModAdd(j + repeat, -repeat, n);
    ModSmall(j, n);
  }

  /** The slices and the comprehension are one function. */
  lemma RotateIsRotatePrompts<T>(items: seq<T>, amount: int)
    requires items != []
    ensures Rotate(items, amount) == RotatePrompts(items, amount)
  {
    var n := |items|;
    var k := Mod(amount, n);
    forall j | 0 <= j < n ensures Rotate(items, amount)[j] == items[Mod(j + amount, n)] {
      ModAdd(amount, j, n);
      if k + j < n {
        ModSmall(k + j, n);
      } else {
        ModUnique(k + j, n, 1, k + j - n);
      }
    }
  }

  /** Rotating back undoes rotating, for either spelling. */
  lemma RotateBack<T>(items: seq<T>, amount: int)
    requires items != []
    ensures Rotate(RotatePrompts(items, amount), -amount) == items
  {
    var turned := RotatePrompts(items, amount);
    RotateIsRotatePrompts(turned, -amount);
    forall j | 0 <= j < |items| ensures RotatePrompts(turned, -amount)[j] == items[j] {
      SlotHoldsPrompt(j, amount, |items|);
    }
  }
}
