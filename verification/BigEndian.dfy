/** Fixed-width big-endian integers, as `struct` packs and unpacks them. */
module BigEndian {
  import opened Basics

  function Pow256(k: nat): (r: nat)
    ensures r > 0
  {
    if k == 0 then 1 else 256 * Pow256(k - 1)
  }

  /** The low k bytes of n, most significant first. */
  function Be(n: nat, k: nat): (r: Bytes)
    ensures |r| == k
  {
    if k == 0 then [] else Be(n / 256, k - 1) + [n % 256]
  }

  function FromBe(s: Bytes): nat {
    if s == [] then 0 else FromBe(s[..|s| - 1]) * 256 + s[|s| - 1]
  }

  lemma {:induction false} UnpackPack(n: nat, k: nat)
    requires n < Pow256(k)
    ensures FromBe(Be(n, k)) == n
  {
    if k > 0 {
      UnpackPack(n / 256, k - 1);
      assert Be(n, k)[..k - 1] == Be(n / 256, k - 1);
    }
  }

  lemma {:induction false} PackUnpack(s: Bytes)
    ensures Be(FromBe(s), |s|) == s && FromBe(s) < Pow256(|s|)
  {
    if s != [] {
      PackUnpack(s[..|s| - 1]);
      assert s == s[..|s| - 1] + [s[|s| - 1]];
    }
  }

  lemma PackInjective(m: nat, n: nat, k: nat)
    requires m < Pow256(k) && n < Pow256(k) && Be(m, k) == Be(n, k)
    ensures m == n
  {
    UnpackPack(m, k);
    UnpackPack(n, k);
  }

  lemma Widths()
    ensures Pow256(4) == 0x1_0000_0000 && Pow256(8) == 0x1_0000_0000_0000_0000
  {
    assert Pow256(2) == 0x1_0000;
    assert Pow256(4) == 0x1_0000_0000;
    assert Pow256(6) == 0x1_0000_0000_0000;
  }
}
