/**
 * `generateRandomClassName` (pageengine/render.go, and the identical copy in
 * pagerender.go). The source seeds a fresh `math/rand` generator from the wall
 * clock on every call; here the generator is injected: `draw(seed, k)` is the
 * k-th value the generator seeded with `seed` yields, and nothing is assumed
 * of it. `rng.Intn(52)` is modelled as `draw(seed, k) % 52`, which ranges over
 * exactly the values `Intn` may return.
 */
module Random {

  const Letters: string := "abcdefghijklmnopqrstuvwxyzABCDEFGHIJKLMNOPQRSTUVWXYZ"

  /** A string of exactly `n` characters, each an ASCII letter. */
  predicate IsToken(t: string, n: nat)
  {
    |t| == n && forall i | 0 <= i < |t| :: t[i] in Letters
  }


  /** A token some draw of the generator gives: the first letter six times. */
  function SomeToken(): (t: string)
    ensures IsToken(t, 6)
  {
    [Letters[0], Letters[0], Letters[0], Letters[0], Letters[0], Letters[0]]
  }

  method GenerateRandomClassName(n: nat, seed: int, draw: (int, nat) -> nat) returns (name: string)
    ensures IsToken(name, n)
  {
    var b := new char[n];
    for i := 0 to n
      invariant forall j | 0 <= j < i :: b[j] in Letters
    {
      b[i] := Letters[draw(seed, i) % |Letters|];
    }
    name := b[..];
  }
}
