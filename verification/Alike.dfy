/** Inputs that differ inside one window only. */
module Alike {
  import opened Words

  /** The two inputs are alike outside a window. */
  predicate AlikeBut(a: seq<byte>, b: seq<byte>, at: nat, n: nat) {
    |a| == |b| && at + n <= |a| && a[..at] == b[..at] && a[at + n..] == b[at + n..]
  }

  lemma SameSize(a: seq<byte>, b: seq<byte>, at: nat, n: nat)
    requires AlikeBut(a, b, at, n)
    ensures |a| == |b| && at + n <= |a|
  {
  }

  lemma OnlyThere(a: seq<byte>, b: seq<byte>, at: nat, n: nat)
    requires AlikeBut(a, b, at, n) && a != b
    ensures a[at..at + n] != b[at..at + n]
  {
    assert a == a[..at] + a[at..at + n] + a[at + n..];
    assert b == b[..at] + b[at..at + n] + b[at + n..];
  }

  lemma NotThere(a: seq<byte>, b: seq<byte>, at: nat, n: nat, i: nat, m: nat)
    requires AlikeBut(a, b, at, n) && i + m <= |a| && (i + m <= at || at + n <= i)
    ensures a[i..i + m] == b[i..i + m]
  {
    if i + m <= at {
      assert a[i..i + m] == a[..at][i..i + m] && b[i..i + m] == b[..at][i..i + m];
    } else {
      Window(a, at + n, a[at + n..], i - at - n, i + m - at - n);
      Window(b, at + n, b[at + n..], i - at - n, i + m - at - n);
    }
  }

  /** The front and the back part of alike inputs are alike. */
  lemma AlikeFront(a: seq<byte>, b: seq<byte>, at: nat, n: nat, cut: nat)
    requires AlikeBut(a, b, at, n) && at + n <= cut <= |a|
    ensures AlikeBut(a[..cut], b[..cut], at, n) && a[cut..] == b[cut..]
    ensures a != b ==> a[..cut] != b[..cut]
  {
    assert a[..cut][..at] == a[..at] && b[..cut][..at] == b[..at];
    assert a[..cut][at + n..] == a[at + n..][..cut - at - n] && b[..cut][at + n..] == b[at + n..][..cut - at - n];
    assert a[cut..] == a[at + n..][cut - at - n..] && b[cut..] == b[at + n..][cut - at - n..];
    assert a == a[..cut] + a[cut..] && b == b[..cut] + b[cut..];
  }

  lemma AlikeBack(a: seq<byte>, b: seq<byte>, at: nat, n: nat, cut: nat)
    requires AlikeBut(a, b, at, n) && cut <= at
    ensures AlikeBut(a[cut..], b[cut..], at - cut, n) && a[..cut] == b[..cut]
    ensures a != b ==> a[cut..] != b[cut..]
  {
    assert a[cut..][..at - cut] == a[..at][cut..] && b[cut..][..at - cut] == b[..at][cut..];
    assert a[cut..][at - cut + n..] == a[at + n..] && b[cut..][at - cut + n..] == b[at + n..];
    assert a[..cut] == a[..at][..cut] && b[..cut] == b[..at][..cut];
    assert a == a[..cut] + a[cut..] && b == b[..cut] + b[cut..];
  }
}
