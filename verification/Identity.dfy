/** Stable identities: components joined by the unit separator, hashed, and prefixed by the kind of
    identity. The digest is a parameter; all that is used of it is that it is injective and yields
    lower-case hexadecimal text. */
module Identity {
  /** `separator.join(parts)`. */
  function Join(separator: char, parts: seq<string>): string {
    if parts == [] then ""
    else if |parts| == 1 then parts[0]
    else parts[0] + [separator] + Join(separator, parts[1..])
  }

  ghost predicate Free(separator: char, parts: seq<string>) {
    forall i :: 0 <= i < |parts| ==> separator !in parts[i]
  }

  /** A separator-free head can be read back, whatever follows it. */
  lemma HeadReadsBack(separator: char, a: string, restA: string, b: string, restB: string)
    requires separator !in a && separator !in b
    requires a + [separator] + restA == b + [separator] + restB
    ensures a == b && restA == restB
  {
    var whole := a + [separator] + restA;
    assert forall i :: 0 <= i < |a| ==> whole[i] == a[i] && a[i] in a;
    assert forall i :: 0 <= i < |b| ==> whole[i] == b[i] && b[i] in b;
    assert whole[|a|] == separator == whole[|b|];
    assert |a| == |b|;
    assert a == whole[..|a|] && b == whole[..|b|];
    assert restA == whole[|a| + 1..] && restB == whole[|b| + 1..];
  }

  /** The first `k` separator-free parts can be read back: the rest may contain anything,
      separators included. */
  lemma {:induction false} JoinPrefixReadsBack(separator: char, xs: seq<string>, ys: seq<string>, k: nat)
    requires k <= |xs| && k <= |ys| && Free(separator, xs[..k]) && Free(separator, ys[..k])
    requires Join(separator, xs) == Join(separator, ys)
    ensures xs[..k] == ys[..k]
  {
    if k > 0 {
      assert xs[0] == xs[..k][0] && ys[0] == ys[..k][0];
      JoinShowsLength(separator, xs);
      JoinShowsLength(separator, ys);
      if |xs| > 1 {
        HeadReadsBack(separator, xs[0], Join(separator, xs[1..]), ys[0], Join(separator, ys[1..]));
        assert xs[1..][..k - 1] == xs[..k][1..] && ys[1..][..k - 1] == ys[..k][1..];
        JoinPrefixReadsBack(separator, xs[1..], ys[1..], k - 1);
      }
      assert xs[..k] == [xs[0]] + xs[1..][..k - 1] && ys[..k] == [ys[0]] + ys[1..][..k - 1];
    }
  }

  /** Joining is injective on nonempty lists of separator-free parts. */
  lemma {:induction false} JoinInjective(separator: char, xs: seq<string>, ys: seq<string>)
    requires xs != [] && ys != [] && Free(separator, xs) && Free(separator, ys)
    requires Join(separator, xs) == Join(separator, ys)
    ensures xs == ys
  {
    if |xs| > 1 && |ys| > 1 {
      HeadReadsBack(separator, xs[0], Join(separator, xs[1..]), ys[0], Join(separator, ys[1..]));
      JoinInjective(separator, xs[1..], ys[1..]);
      assert xs == [xs[0]] + xs[1..] && ys == [ys[0]] + ys[1..];
    } else {
      JoinShowsLength(separator, xs);
      JoinShowsLength(separator, ys);
    }
  }

  /** A separator-free last part can be read back, whatever stands before it. */
  lemma TailReadsBack(separator: char, restA: string, a: string, restB: string, b: string)
    requires separator !in a && separator !in b
    requires restA + [separator] + a == restB + [separator] + b
    ensures restA == restB && a == b
  {
    var whole := restA + [separator] + a;
    var m, n := |restA|, |restB|;
    assert forall i :: m < i < |whole| ==> whole[i] == a[i - m - 1] && a[i - m - 1] in a;
    assert forall i :: n < i < |whole| ==> whole[i] == b[i - n - 1] && b[i - n - 1] in b;
    assert whole[m] == separator == whole[n];
    assert m == n;
    assert restA == whole[..m] == restB && a == whole[m + 1..] == b;
  }

  lemma {:induction false} JoinEndsWithLast(separator: char, parts: seq<string>)
    requires |parts| > 1
    ensures Join(separator, parts)
         == Join(separator, parts[..|parts| - 1]) + [separator] + parts[|parts| - 1]
  {
    if |parts| == 2 {
      assert parts[1..] == [parts[1]] && parts[..1] == [parts[0]];
    } else {
      var front := parts[..|parts| - 1];
      JoinEndsWithLast(separator, parts[1..]);
      assert front[1..] == parts[1..][..|parts| - 2];
      assert Join(separator, front) == parts[0] + [separator] + Join(separator, front[1..]);
      assert Join(separator, parts) == parts[0] + [separator] + Join(separator, parts[1..]);
    }
  }

  /** The last `k` separator-free parts can be read back: what stands before them may contain anything. */
  lemma {:induction false} JoinSuffixReadsBack(separator: char, xs: seq<string>, ys: seq<string>, k: nat)
    requires k < |xs| && k < |ys| && Free(separator, xs[|xs| - k..]) && Free(separator, ys[|ys| - k..])
    requires Join(separator, xs) == Join(separator, ys)
    ensures xs[|xs| - k..] == ys[|ys| - k..]
  {
    if k > 0 {
      var m, n := |xs| - 1, |ys| - 1;
      assert xs[m] == xs[|xs| - k..][k - 1] && ys[n] == ys[|ys| - k..][k - 1];
      JoinEndsWithLast(separator, xs);
      JoinEndsWithLast(separator, ys);
      TailReadsBack(separator, Join(separator, xs[..m]), xs[m], Join(separator, ys[..n]), ys[n]);
      assert xs[..m][m - (k - 1)..] == xs[|xs| - k..][..k - 1] && ys[..n][n - (k - 1)..] == ys[|ys| - k..][..k - 1];
      JoinSuffixReadsBack(separator, xs[..m], ys[..n], k - 1);
      assert xs[|xs| - k..] == xs[..m][m - (k - 1)..] + [xs[m]] && ys[|ys| - k..] == ys[..n][n - (k - 1)..] + [ys[n]];
    }
  }

  lemma JoinShowsLength(separator: char, parts: seq<string>)
    requires parts != [] && separator !in parts[0]
    ensures separator in Join(separator, parts) <==> |parts| > 1
  {
    if |parts| > 1 {
      assert Join(separator, parts)[|parts[0]|] == separator;
    }
  }

  // ------------------------------------------------------------ digests

  const UNIT_SEPARATOR: char := '\U{1F}'

  type Digest = string -> string

  predicate Hexadecimal(s: string) {
    forall c :: c in s ==> '0' <= c <= '9' || 'a' <= c <= 'f'
  }

  ghost predicate GoodDigest(h: Digest) {
    && (forall a, b :: h(a) == h(b) ==> a == b)
    && (forall a :: Hexadecimal(h(a)))
  }

  function StableId(h: Digest, prefix: string, components: seq<string>): string {
    prefix + "_" + h(Join(UNIT_SEPARATOR, components))
  }

  /** An identity of the given kind, as the persisted-identity patterns demand. */
  predicate IsId(prefix: string, s: string) {
    |prefix| < |s| && s[..|prefix| + 1] == prefix + "_" && Hexadecimal(s[|prefix| + 1..])
  }

  lemma StableIdIsId(h: Digest, prefix: string, components: seq<string>)
    requires GoodDigest(h)
    ensures IsId(prefix, StableId(h, prefix, components))
  {
    var id, digest := StableId(h, prefix, components), h(Join(UNIT_SEPARATOR, components));
    assert id[..|prefix| + 1] == prefix + "_" && id[|prefix| + 1..] == digest;
  }

  /** Identities carry no separator, so they are safe components of later identities. */
  lemma IdIsSeparatorFree(prefix: string, s: string)
    requires IsId(prefix, s) && UNIT_SEPARATOR !in prefix
    ensures UNIT_SEPARATOR !in s
  {
    assert s == prefix + "_" + s[|prefix| + 1..];
  }

  lemma StableIdReadsBack(h: Digest, prefix: string, xs: seq<string>, ys: seq<string>)
    requires GoodDigest(h) && StableId(h, prefix, xs) == StableId(h, prefix, ys)
    ensures Join(UNIT_SEPARATOR, xs) == Join(UNIT_SEPARATOR, ys)
  {
    var a, b := h(Join(UNIT_SEPARATOR, xs)), h(Join(UNIT_SEPARATOR, ys));
    assert (prefix + "_" + a)[|prefix| + 1..] == a && (prefix + "_" + b)[|prefix| + 1..] == b;
  }

  /** Different separator-free components give different identities of a kind. */
  lemma StableIdInjective(h: Digest, prefix: string, xs: seq<string>, ys: seq<string>)
    requires GoodDigest(h) && xs != [] && ys != [] && Free(UNIT_SEPARATOR, xs) && Free(UNIT_SEPARATOR, ys)
    requires StableId(h, prefix, xs) == StableId(h, prefix, ys)
    ensures xs == ys
  {
    StableIdReadsBack(h, prefix, xs, ys);
    JoinInjective(UNIT_SEPARATOR, xs, ys);
  }

  /** Different leading components give different identities, even if the tails are not separator free. */
  lemma StableIdPrefixInjective(h: Digest, prefix: string, xs: seq<string>, ys: seq<string>, k: nat)
    requires GoodDigest(h) && k <= |xs| && k <= |ys|
    requires Free(UNIT_SEPARATOR, xs[..k]) && Free(UNIT_SEPARATOR, ys[..k])
    requires StableId(h, prefix, xs) == StableId(h, prefix, ys)
    ensures xs[..k] == ys[..k]
  {
    StableIdReadsBack(h, prefix, xs, ys);
    JoinPrefixReadsBack(UNIT_SEPARATOR, xs, ys, k);
  }

  /** Without separator-freedom joining is not injective. */
  lemma JoinNeedsSeparatorFreedom(a: string, b: string)
    ensures Join(UNIT_SEPARATOR, [a + [UNIT_SEPARATOR] + b]) == Join(UNIT_SEPARATOR, [a, b])
  {
    assert [a, b][1..] == [b];
  }
}
