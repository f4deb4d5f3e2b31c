/**
  The key of a cached preview: a hash over length-prefixed fields, so that no two (scope, path) pairs feed the
  hash the same bytes. The hash itself is a parameter.
 */
module PreviewKey {
  import opened Arithmetic
  import opened ByteStrings

  function Pow256(k: nat): nat {
    if k == 0 then 1 else 256 * Pow256(k - 1)
  }

  /** The `k` low bytes of `n`, least significant first. */
  function LittleEndian(n: nat, k: nat): (r: Bytes)
    ensures |r| == k
  {
    if k == 0 then [] else [n % 256] + LittleEndian(n / 256, k - 1)
  }

  /** What the hasher is fed: each field preceded by its length in eight bytes. */
  function Preimage(fields: seq<Bytes>): Bytes {
    if fields == [] then []
    else Preimage(fields[..|fields| - 1]) + LittleEndian(|fields[|fields| - 1]|, 8) + fields[|fields| - 1]
  }

  lemma PreimageMore(fields: seq<Bytes>, f: Bytes)
    ensures Preimage(fields + [f]) == Preimage(fields) + LittleEndian(|f|, 8) + f
  {
    assert (fields + [f])[..|fields|] == fields;
  }

  lemma PreimageOfOne(a: Bytes)
    ensures Preimage([a]) == LittleEndian(|a|, 8) + a
  {
    PreimageMore([], a);
    assert [] + [a] == [a] && [] + LittleEndian(|a|, 8) == LittleEndian(|a|, 8);
  }

  lemma PreimageOfThree(a: Bytes, b: Bytes, c: Bytes)
    ensures Preimage([a, b, c]) ==
            LittleEndian(|a|, 8) + a + LittleEndian(|b|, 8) + b + LittleEndian(|c|, 8) + c
  {
    assert [a, b, c] == [a, b] + [c] && [a, b] == [a] + [b];
    PreimageOfOne(a);
    PreimageMore([a], b);
    PreimageMore([a, b], c);
  }

  method PreviewDigest(sha256: Bytes -> Bytes, scope: Bytes, path: Bytes, version: Bytes) returns (digest: Bytes)
    requires forall b: Bytes :: |sha256(b)| == 32
    ensures digest == sha256(Preimage([scope, path, version]))[..16]
    ensures digest == sha256(LittleEndian(|scope|, 8) + scope + LittleEndian(|path|, 8) + path +
                             LittleEndian(|version|, 8) + version)[..16]
  {
    PreimageOfThree(scope, path, version);
    var fields := [scope, path, version];
    var hasher: Bytes := [];
    for i := 0 to |fields|
      invariant hasher == Preimage(fields[..i])
    {
      assert fields[..i + 1][..i] == fields[..i];
      hasher := hasher + LittleEndian(|fields[i]|, 8);
      hasher := hasher + fields[i];
    }
    assert fields[..|fields|] == fields;
    digest := sha256(hasher)[..16];
  }

  /** Byte `i` of a length is its digit of weight 256 to the `i`. */
  lemma {:induction false} LowByteFirst(n: nat, k: nat, i: nat)
    requires i < k
    ensures Pow256(i) > 0 && LittleEndian(n, k)[i] == n / Pow256(i) % 256
  {
    if i > 0 {
      LowByteFirst(n / 256, k - 1, i - 1);
      DivTwice(n, 256, Pow256(i - 1));
    }
  }

  lemma DivTwice(n: nat, a: nat, b: nat)
    requires a > 0 && b > 0
    ensures a * b > 0 && n / a / b == n / (a * b)
  {
    var q, r := n / a, n % a;
    var p, s := q / b, q % b;
    assert n == a * q + r && q == b * p + s;
    assert a * q == a * (b * p) + a * s && a * (b * p) == (a * b) * p;
    assert n == (a * b) * p + (a * s + r);
    assert a * s + r < a * b by { assert a * (s + 1) <= a * b by { MulMonotone(a, s + 1, b); } }
    DivIs(n, a * b, p, a * s + r);
  }

  lemma DivIs(n: nat, w: nat, q: nat, r: nat)
    requires w > 0 && n == w * q + r && r < w
    ensures n / w == q
  {
    DivBelow(n, w, q);
    DivBelow(n, w, q + 1);
    assert w * (q + 1) == w * q + w;
  }

  // ---- No two keys share a preimage -------------------------------------------------------------------------

  /** The same bytes, front to back. */
  function Fed(fields: seq<Bytes>): Bytes {
    if fields == [] then [] else LittleEndian(|fields[0]|, 8) + fields[0] + Fed(fields[1..])
  }

  lemma {:induction false} FedOfAppend(a: seq<Bytes>, f: Bytes)
    ensures Fed(a + [f]) == Fed(a) + LittleEndian(|f|, 8) + f
  {
    if a == [] {
      assert [] + [f] == [f] && [f][1..] == [];
    } else {
      assert (a + [f])[1..] == a[1..] + [f];
      FedOfAppend(a[1..], f);
    }
  }

  lemma {:induction false} PreimageIsFed(fields: seq<Bytes>)
    ensures Preimage(fields) == Fed(fields)
  {
    if fields != [] {
      var n := |fields| - 1;
      PreimageIsFed(fields[..n]);
      FedOfAppend(fields[..n], fields[n]);
      assert fields == fields[..n] + [fields[n]];
    }
  }

  lemma {:induction false} LittleEndianIsInjective(a: nat, b: nat, k: nat)
    requires a < Pow256(k) && b < Pow256(k) && LittleEndian(a, k) == LittleEndian(b, k)
    ensures a == b
  {
    if k > 0 {
      var x, y := LittleEndian(a, k), LittleEndian(b, k);
      assert x[0] == y[0] && x[1..] == LittleEndian(a / 256, k - 1) && y[1..] == LittleEndian(b / 256, k - 1);
      LittleEndianIsInjective(a / 256, b / 256, k - 1);
    }
  }

  /** Lengths that fit in 64 bits, as every string's does. */
  predicate Fit(fields: seq<Bytes>) {
    forall i :: 0 <= i < |fields| ==> |fields[i]| < Pow256(8)
  }

  lemma {:induction false} FedIsInjective(a: seq<Bytes>, b: seq<Bytes>)
    requires |a| == |b| && Fit(a) && Fit(b) && Fed(a) == Fed(b)
    ensures a == b
  {
    if a != [] {
      var x, y := Fed(a), Fed(b);
      assert x[..8] == LittleEndian(|a[0]|, 8) && y[..8] == LittleEndian(|b[0]|, 8);
      LittleEndianIsInjective(|a[0]|, |b[0]|, 8);
      var n := |a[0]|;
      assert x[8..8 + n] == a[0] && y[8..8 + n] == b[0];
      assert x[8 + n..] == Fed(a[1..]) && y[8 + n..] == Fed(b[1..]);
      FedIsInjective(a[1..], b[1..]);
    }
  }

  /** Two previews are hashed from the same bytes exactly when they are the same preview. */
  lemma KeysShareNoPreimage(scope: Bytes, path: Bytes, scope': Bytes, path': Bytes, version: Bytes)
    requires Fit([scope, path, version]) && Fit([scope', path', version])
    ensures Preimage([scope, path, version]) == Preimage([scope', path', version]) <==> scope == scope' && path == path'
  {
    var a, b := [scope, path, version], [scope', path', version];
    PreimageIsFed(a);
    PreimageIsFed(b);
    if Fed(a) == Fed(b) {
      FedIsInjective(a, b);
      assert a[0] == b[0] && a[1] == b[1];
    }
  }
}
