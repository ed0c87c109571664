/** Facts about sequences. */
module Sequences {
  lemma TakeMore<X>(s: seq<X>, i: nat)
    requires i < |s|
    ensures s[..i] + [s[i]] == s[..i + 1]
  {
  }

  lemma TakeEnds<X>(s: seq<X>)
    ensures s[..0] == [] && s[..|s|] == s
  {
  }

  lemma Associative<X>(a: seq<X>, b: seq<X>, c: seq<X>)
    ensures (a + b) + c == a + (b + c)
  {
  }

  lemma TakeOfSum<X>(s: seq<X>, t: seq<X>, k: nat)
    requires k <= |s|
    ensures (s + t)[..k] == s[..k]
  {
  }

  lemma DropOfSum<X>(s: seq<X>, t: seq<X>, k: nat)
    requires k <= |t|
    ensures (s + t)[|s| + k..] == t[k..]
  {
  }

  lemma MiddleOfSum<X>(s: seq<X>, t: seq<X>, i: nat, k: nat)
    requires i <= |s| && k <= |t|
    ensures (s + t)[i..|s| + k] == s[i..] + t[..k]
  {
  }

  lemma DropDrop<X>(s: seq<X>, i: nat, k: nat)
    requires i + k <= |s|
    ensures s[i..][k..] == s[i + k..]
  {
  }

  lemma ThreeParts<X>(s: seq<X>, i: nat, j: nat, k: nat)
    requires i <= j <= k <= |s|
    ensures s[..k] == s[..i] + s[i..j] + s[j..][..k - j]
  {
  }

  lemma TakeOfDrop<X>(s: seq<X>, i: nat, k: nat)
    requires i + k <= |s|
    ensures s[i..][..k] == s[i..i + k]
  {
  }

  lemma HeadAndTail<X>(s: seq<X>, t: seq<X>)
    requires s != []
    ensures [s[0]] + s[1..] == s && s + t == [s[0]] + (s[1..] + t)
  {
  }

  lemma HeadAndRun<X>(s: seq<X>, n: nat)
    requires n < |s|
    ensures [s[0]] + s[1..][..n] == s[..n + 1] && s[1..][n..] == s[n + 1..]
  {
  }

  lemma WithoutLast<X>(s: seq<X>, x: X)
    ensures |s + [x]| == |s| + 1 && (s + [x])[..|s|] == s
  {
  }
}
