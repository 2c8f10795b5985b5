/**
 FNV-1a (crates/codegen/src/codegen.rs:67-76, 167-174; include/nupa/runtime.c:95-103): the 32-bit
 selector hash, computed by the compiler and again by the runtime, and the 64-bit layout signature.
 */
module SelectorHash {
  import opened Words

  type byte = b: int | 0 <= b < 256

  /** A word size with its constants; `inverse` undoes a multiplication by `prime`. */
  datatype Word = Word(bits: nat, basis: nat, prime: nat, inverse: nat)

  const SELECTOR: Word := Word(32, 0x811C9DC5, 0x01000193, 0x359C449B)
  const SIGNATURE: Word := Word(64, 0xCBF29CE484222325, 0x100000001B3, 0xCE965057AFF6957B)

  // ---------------------------------------------------------------- modular inverses

  ghost predicate Invertible(w: Word) {
    w.bits >= 8 && (w.prime * w.inverse) % Pow2(w.bits) == 1
  }

  lemma {:induction false} BothPrimesInvertible()
    ensures Invertible(SELECTOR) && Invertible(SIGNATURE)
    ensures SELECTOR.basis < Pow2(32) && SIGNATURE.basis < Pow2(64)
  {
    Powers();
    assert SELECTOR.prime * SELECTOR.inverse == 1 + 0x1_0000_0000 * 0x359C99;
    assert SIGNATURE.prime * SIGNATURE.inverse == 1 + 0x1_0000_0000_0000_0000 * 0xCE9650590F;
    ModOf(1, 0x1_0000_0000, 0x359C99);
    ModOf(1, 0x1_0000_0000_0000_0000, 0xCE9650590F);
  }

  lemma {:induction false} ModOf(x: int, m: nat, t: int)
    requires 0 <= x < m
    ensures (x + m * t) % m == x
  {
    var n := x + m * t;
    Division(n, m, n / m, n % m, t, x);
  }

  lemma {:induction false} TimesInverse(x: nat, p: nat, q: nat, m: nat)
    requires x < m && (p * q) % m == 1
    ensures ((x * p) % m) * q % m == x
  {
    var k, u := (p * q) / m, (x * p) / m;
    var r := (x * p) % m;
    assert p * q == m * k + 1;
    assert x * p == m * u + r;
    calc {
      r * q;
      (x * p - m * u) * q;
      x * (p * q) - m * u * q;
      x * (m * k + 1) - m * u * q;
      x + m * (x * k - u * q);
    }
    ModOf(x, m, x * k - u * q);
  }

  // ---------------------------------------------------------------- one byte

  /** `hash ^= b; hash *= prime`, wrapping. */
  function Step(w: Word, h: nat, b: byte): (r: nat)
    ensures r < Pow2(w.bits)
  {
    (Xor(h, b, w.bits) * w.prime) % Pow2(w.bits)
  }

  /** Takes the byte off again. */
  function Back(w: Word, h: nat, b: byte): nat {
    Xor((h * w.inverse) % Pow2(w.bits), b, w.bits)
  }

  lemma {:induction false} StepUndone(w: Word, h: nat, b: byte)
    requires Invertible(w) && h < Pow2(w.bits)
    ensures Back(w, Step(w, h, b), b) == h
  {
    TimesInverse(Xor(h, b, w.bits), w.prime, w.inverse, Pow2(w.bits));
    XorUndone(h, b, w.bits);
  }

  lemma {:induction false} ByteFits(w: Word, b: byte)
    requires Invertible(w)
    ensures b < Pow2(w.bits)
  {
    Powers();
    PowSum(8, w.bits - 8);
    var rest := Pow2(w.bits - 8);
    assert 0x100 * rest >= 0x100;
  }

  /** From one state, different bytes lead to different states. */
  lemma {:induction false} BytesDiffer(w: Word, h: nat, a: byte, b: byte)
    requires Invertible(w) && h < Pow2(w.bits) && Step(w, h, a) == Step(w, h, b)
    ensures a == b
  {
    var m, x, y := Pow2(w.bits), Xor(h, a, w.bits), Xor(h, b, w.bits);
    TimesInverse(x, w.prime, w.inverse, m);
    TimesInverse(y, w.prime, w.inverse, m);
    assert x == y;
    ByteFits(w, a);
    ByteFits(w, b);
    XorSwapped(h, a, w.bits);
    XorSwapped(h, b, w.bits);
    XorUndone(a, h, w.bits);
    XorUndone(b, h, w.bits);
  }

  // ---------------------------------------------------------------- byte strings

  function Fold(w: Word, h: nat, s: seq<byte>): nat
    decreases |s|
  {
    if s == [] then h else Fold(w, Step(w, h, s[0]), s[1..])
  }

  function Hash(w: Word, s: seq<byte>): nat {
    Fold(w, w.basis, s)
  }

  lemma {:induction false} FoldConcat(w: Word, h: nat, s: seq<byte>, t: seq<byte>)
    ensures Fold(w, h, s + t) == Fold(w, Fold(w, h, s), t)
    decreases |s|
  {
    if s == [] {
      assert s + t == t;
    } else {
      assert (s + t)[1..] == s[1..] + t;
      FoldConcat(w, Step(w, h, s[0]), s[1..], t);
    }
  }

  lemma {:induction false} FoldBound(w: Word, h: nat, s: seq<byte>)
    requires h < Pow2(w.bits)
    ensures Fold(w, h, s) < Pow2(w.bits)
    decreases |s|
  {
    if s != [] {
      FoldBound(w, Step(w, h, s[0]), s[1..]);
    }
  }

  /** Hashing the same bytes on top of two states joins them only if they were one. */
  lemma {:induction false} SameSuffix(w: Word, g: nat, h: nat, s: seq<byte>)
    requires Invertible(w) && g < Pow2(w.bits) && h < Pow2(w.bits)
    ensures Fold(w, g, s) == Fold(w, h, s) <==> g == h
    decreases |s|
  {
    hide Step, Back, Invertible, Pow2;
    if s != [] {
      StepUndone(w, g, s[0]);
      StepUndone(w, h, s[0]);
      SameSuffix(w, Step(w, g, s[0]), Step(w, h, s[0]), s[1..]);
    }
  }

  ghost predicate DifferInOneByte(s: seq<byte>, t: seq<byte>, i: nat) {
    && |s| == |t| && i < |s| && s[i] != t[i]
    && forall k :: 0 <= k < |s| && k != i ==> s[k] == t[k]
  }

  lemma {:induction false} HashSplit(w: Word, s: seq<byte>, i: nat)
    requires i < |s|
    ensures Hash(w, s) == Fold(w, Step(w, Hash(w, s[..i]), s[i]), s[i + 1..])
  {
    hide Step;
    assert s == s[..i] + s[i..] && s[i..][1..] == s[i + 1..];
    FoldConcat(w, w.basis, s[..i], s[i..]);
  }

  lemma {:induction false} OneByteChanges(w: Word, s: seq<byte>, t: seq<byte>, i: nat)
    requires Invertible(w) && w.basis < Pow2(w.bits) && DifferInOneByte(s, t, i)
    ensures Hash(w, s) != Hash(w, t)
  {
    hide Step, Invertible, Pow2, Fold;
    HashSplit(w, s, i);
    HashSplit(w, t, i);
    assert t[..i] == s[..i] && t[i + 1..] == s[i + 1..];
    FoldBound(w, w.basis, s[..i]);
    var h := Hash(w, s[..i]);
    if Step(w, h, s[i]) == Step(w, h, t[i]) {
      BytesDiffer(w, h, s[i], t[i]);
    }
    SameSuffix(w, Step(w, h, s[i]), Step(w, h, t[i]), s[i + 1..]);
  }

  /** Names of equal length that differ in exactly one byte never share a selector hash or a signature. */
  lemma {:induction false} OneByteChangesHash(s: seq<byte>, t: seq<byte>, i: nat)
    requires DifferInOneByte(s, t, i)
    ensures Hash(SELECTOR, s) != Hash(SELECTOR, t) && Hash(SIGNATURE, s) != Hash(SIGNATURE, t)
  {
    hide *;
    BothPrimesInvertible();
    Bits();
    OneByteChanges(SELECTOR, s, t, i);
    OneByteChanges(SIGNATURE, s, t, i);
  }

  lemma {:induction false} Bits()
    ensures SELECTOR.bits == 32 && SIGNATURE.bits == 64
  {
  }

  // ---------------------------------------------------------------- compiler and runtime

  /** The compiler's loop over the bytes of a name. */
  method Fnv1a(s: seq<byte>) returns (hash: nat)
    ensures hash == Hash(SELECTOR, s)
  {
    hash := SELECTOR.basis;
    for i := 0 to |s|
      invariant Fold(SELECTOR, hash, s[i..]) == Hash(SELECTOR, s)
    {
      assert s[i..][1..] == s[i + 1..];
      hash := Xor(hash, s[i], 32);
      hash := (hash * SELECTOR.prime) % Pow2(32);
    }
  }

  /** A C string: the bytes before the first NUL. */
  function CString(memory: seq<byte>): (s: seq<byte>)
    ensures s <= memory && 0 !in s
    ensures s == memory || (|s| < |memory| && memory[|s|] == 0)
  {
    if memory == [] || memory[0] == 0 then [] else [memory[0]] + CString(memory[1..])
  }

  /** The runtime's loop, up to the terminating NUL. */
  method RegisterName(memory: seq<byte>) returns (hash: nat)
    requires 0 in memory
    ensures hash == Hash(SELECTOR, CString(memory))
  {
    hash := SELECTOR.basis;
    var p := 0;
    while memory[p] != 0
      invariant 0 <= p < |memory| && 0 in memory[p..]
      invariant Fold(SELECTOR, hash, CString(memory[p..])) == Hash(SELECTOR, CString(memory))
      decreases |memory| - p
    {
      assert memory[p..][1..] == memory[p + 1..];
      assert CString(memory[p..])[1..] == CString(memory[p + 1..]);
      hash := Xor(hash, memory[p], 32);
      hash := (hash * SELECTOR.prime) % Pow2(32);
      p := p + 1;
    }
  }

  lemma {:induction false} CStringStops(name: seq<byte>, rest: seq<byte>)
    ensures CString(name + [0] + rest) == CString(name)
    ensures 0 !in name ==> CString(name) == name
    decreases |name|
  {
    if name != [] {
      assert (name + [0] + rest)[1..] == name[1..] + [0] + rest;
      CStringStops(name[1..], rest);
    }
  }

  /** Both sides give a name without NUL the same hash, whatever lies after it in memory. */
  method HashesAgree(name: seq<byte>, rest: seq<byte>) returns (compiled: nat, registered: nat)
    requires 0 !in name
    ensures compiled == registered == Hash(SELECTOR, name)
  {
    CStringStops(name, rest);
    compiled := Fnv1a(name);
    registered := RegisterName(name + [0] + rest);
  }

  // ---------------------------------------------------------------- the layout signature

  function Concat(names: seq<seq<byte>>): seq<byte> {
    if names == [] then [] else names[0] + Concat(names[1..])
  }

  /** One hash over all bytes of all names. */
  method LayoutSignature(names: seq<seq<byte>>) returns (h: nat)
    ensures h == Hash(SIGNATURE, Concat(names))
  {
    h := SIGNATURE.basis;
    for n := 0 to |names|
      invariant Fold(SIGNATURE, h, Concat(names[n..])) == Hash(SIGNATURE, Concat(names))
    {
      assert names[n..][1..] == names[n + 1..];
      FoldConcat(SIGNATURE, h, names[n], Concat(names[n + 1..]));
      ghost var start := h;
      for i := 0 to |names[n]|
        invariant Fold(SIGNATURE, h, names[n][i..]) == Fold(SIGNATURE, start, names[n])
      {
        assert names[n][i..][1..] == names[n][i + 1..];
        h := Xor(h, names[n][i], 64);
        h := (h * SIGNATURE.prime) % Pow2(64);
      }
    }
  }

  lemma {:induction false} ConcatSplit(names: seq<seq<byte>>, n: nat)
    requires n < |names|
    ensures Concat(names) == Concat(names[..n]) + names[n] + Concat(names[n + 1..])
    decreases n
  {
    if n == 0 {
      assert names[..0] == [];
    } else {
      ConcatSplit(names[1..], n - 1);
      assert names[1..][..n - 1] == names[..n][1..] && names[1..][n..] == names[n + 1..];
    }
  }

  /** Two layouts whose names differ in one byte of one name never share a signature, whatever the names around it. */
  lemma {:induction false} OneByteChangesSignature(names: seq<seq<byte>>, others: seq<seq<byte>>, n: nat, i: nat)
    requires |names| == |others| && n < |names| && DifferInOneByte(names[n], others[n], i)
    requires forall k :: 0 <= k < |names| && k != n ==> names[k] == others[k]
    ensures Hash(SIGNATURE, Concat(names)) != Hash(SIGNATURE, Concat(others))
  {
    hide Hash, Concat;
    assert names[..n] == others[..n] && names[n + 1..] == others[n + 1..];
    ConcatSplit(names, n);
    ConcatSplit(others, n);
    var before, after := Concat(names[..n]), Concat(names[n + 1..]);
    assert DifferInOneByte(before + names[n] + after, before + others[n] + after, |before| + i);
    OneByteChangesHash(Concat(names), Concat(others), |before| + i);
  }

  /** No separators: whenever two lists spell the same bytes their signatures agree, as here. */
  lemma {:induction false} SignatureForgetsBoundaries(a: byte, b: byte)
    ensures [[a], [b]] != [[a, b]] && Hash(SIGNATURE, Concat([[a], [b]])) == Hash(SIGNATURE, Concat([[a, b]]))
  {
    var two: seq<seq<byte>>, one: seq<seq<byte>> := [[a], [b]], [[a, b]];
    assert two[1..] == [[b]] && two[1..][1..] == [] && one[1..] == [];
    assert Concat(two[1..]) == [b];
    assert Concat(two) == [a, b] == Concat(one);
    assert |two| != |one|;
  }
}
