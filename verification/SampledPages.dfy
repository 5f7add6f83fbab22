// The page of a sampled allocation: canary bytes everywhere, and their check around
// the caller's region when the sample is freed.
module SampledPages {
  import opened Geometry

  /** The byte the canary puts at an offset of the page. */
  function CanaryByte(canary: bv64, i: nat): Byte {
    ByteOf(canary, i % 8)
  }

  ghost predicate Matches(page: seq<Byte>, canary: bv64, from: nat, to: nat)
    requires to <= |page|
  {
    forall i: nat :: from <= i < to ==> page[i] == CanaryByte(canary, i)
  }

  /** The bytes a check looks at: what the caller's n bytes leave of the page. */
  function CheckFrom(n: nat, rightAligned: bool): nat {
    if rightAligned then 0 else n
  }

  function CheckTo(n: nat, rightAligned: bool): nat
    requires n <= PAGE_SIZE
  {
    if rightAligned then PAGE_SIZE - n else PAGE_SIZE
  }

  /** The byte is not one of the caller's n, which are the first of the page or the last. */
  predicate Around(i: nat, n: nat, rightAligned: bool) {
    if rightAligned then i + n < 4096 else i >= n
  }

  lemma MatchesAround(page: seq<Byte>, canary: bv64, n: nat, rightAligned: bool)
    requires |page| == PAGE_SIZE && n <= PAGE_SIZE
    ensures !Matches(page, canary, CheckFrom(n, rightAligned), CheckTo(n, rightAligned)) <==>
            exists i: nat :: i < 4096 && Around(i, n, rightAligned) && page[i] != ByteOf(canary, i % 8)
  {
    hide ByteOf;
  }

  /** A qword in memory equals the canary exactly when its eight bytes do. */
  lemma QwordMatches(page: seq<Byte>, canary: bv64, i: nat)
    requires i % 8 == 0 && i + 8 <= |page|
    ensures page[i..i + 8] == QwordBytes(canary) <==> Matches(page, canary, i, i + 8)
  {
    hide ByteOf, QwordBytes;
    if Matches(page, canary, i, i + 8) {
      forall k: nat | k < 8 ensures page[i..i + 8][k] == QwordBytes(canary)[k] {
        QwordByte(canary, i, k);
        assert page[i + k] == CanaryByte(canary, i + k);
      }
    } else {
      var j: nat :| i <= j < i + 8 && page[j] != CanaryByte(canary, j);
      QwordByte(canary, i, j - i);
      assert page[i..i + 8][j - i] == page[j];
    }
  }

  lemma QwordByte(canary: bv64, i: nat, k: nat)
    requires i % 8 == 0 && k < 8
    ensures QwordBytes(canary)[k] == CanaryByte(canary, i + k)
  {
    hide ByteOf;
    assert (i + k) % 8 == k;
  }

  lemma MatchesAppend(page: seq<Byte>, canary: bv64, a: nat, b: nat, c: nat)
    requires a <= b <= c <= |page|
    ensures Matches(page, canary, a, c) <==> Matches(page, canary, a, b) && Matches(page, canary, b, c)
  {
  }

  /** Bytes one at a time, up to the next qword boundary or to the end. */
  method CheckBytes(page: array<Byte>, canary: bv64, from: nat, to: nat, toBoundary: bool)
    returns (at: nat, aborted: bool)
    requires from <= to <= page.Length
    ensures from <= at <= to
    ensures aborted ==> !Matches(page[..], canary, from, to)
    ensures !aborted ==> Matches(page[..], canary, from, at) && (at == to || (toBoundary && at % 8 == 0))
  {
    hide ByteOf;
    at, aborted := from, false;
    while at < to && (!toBoundary || at % 8 != 0)
      invariant from <= at <= to && Matches(page[..], canary, from, at)
    {
      if page[at] != CanaryByte(canary, at) {
        aborted := true;
        return;
      }
      at := at + 1;
    }
  }

  /** Two qwords at a time; a mismatch is left to the qword loop. */
  method CheckPairs(page: array<Byte>, canary: bv64, from: nat, to: nat) returns (at: nat)
    requires from <= to <= page.Length && from % 8 == 0
    ensures from <= at <= to && at % 8 == 0 && Matches(page[..], canary, from, at)
  {
    hide ByteOf, Matches, QwordBytes;
    at := from;
    MatchesNone(page[..], canary, at);
    while at + 16 <= to
      invariant from <= at <= to && at % 8 == 0 && Matches(page[..], canary, from, at)
    {
      if page[at..at + 8] != QwordBytes(canary) || page[at + 8..at + 16] != QwordBytes(canary) {
        return;
      }
      Extend(page, canary, from, at);
      Extend(page, canary, from, at + 8);
      at := at + 16;
    }
  }

  lemma MatchesNone(page: seq<Byte>, canary: bv64, a: nat)
    requires a <= |page|
    ensures Matches(page, canary, a, a)
  {
  }

  lemma Extend(page: array<Byte>, canary: bv64, from: nat, at: nat)
    requires from <= at && at + 8 <= page.Length && at % 8 == 0 && Matches(page[..], canary, from, at)
    ensures page[at..at + 8] == QwordBytes(canary) <==> Matches(page[..], canary, from, at + 8)
  {
    hide ByteOf, Matches, QwordBytes;
    assert page[..][at..at + 8] == page[at..at + 8];
    QwordMatches(page[..], canary, at);
    MatchesAppend(page[..], canary, from, at, at + 8);
  }

  method CheckQwords(page: array<Byte>, canary: bv64, from: nat, to: nat) returns (at: nat, aborted: bool)
    requires from <= to <= page.Length && from % 8 == 0
    ensures from <= at <= to
    ensures aborted ==> !Matches(page[..], canary, from, to)
    ensures !aborted ==> Matches(page[..], canary, from, at)
  {
    hide ByteOf, Matches, QwordBytes;
    at, aborted := from, false;
    MatchesNone(page[..], canary, at);
    while at + 8 <= to
      invariant from <= at <= to && at % 8 == 0 && Matches(page[..], canary, from, at)
    {
      Extend(page, canary, from, at);
      if page[at..at + 8] != QwordBytes(canary) {
        MatchesAppend(page[..], canary, from, at + 8, to);
        aborted := true;
        return;
      }
      at := at + 8;
    }
  }

  /** check_sanity_canary: aborts exactly when a byte outside the caller's n bytes is not
      the one the canary put there, for either alignment and with or without the pair
      loop. */
  method CheckSanityCanary(page: array<Byte>, canary: bv64, n: nat, rightAligned: bool, neon: bool)
    returns (aborted: bool)
    requires page.Length == PAGE_SIZE && n <= PAGE_SIZE
    ensures aborted <==> !Matches(page[..], canary, CheckFrom(n, rightAligned), CheckTo(n, rightAligned))
    ensures aborted <==> exists i: nat :: i < 4096 && Around(i, n, rightAligned) && page[i] != ByteOf(canary, i % 8)
  {
    MatchesAround(page[..], canary, n, rightAligned);
    hide Matches, Around, ByteOf;
    var from, to := CheckFrom(n, rightAligned), CheckTo(n, rightAligned);
    var at;
    at, aborted := CheckBytes(page, canary, from, to, true);
    if aborted { return; }
    MatchesAppend(page[..], canary, from, at, to);
    if at == to {
      MatchesNone(page[..], canary, to);
      return;
    }
    var mid := at;
    if neon {
      mid := CheckPairs(page, canary, at, to);
    } else {
      MatchesNone(page[..], canary, at);
    }
    MatchesAppend(page[..], canary, at, mid, to);
    var after;
    after, aborted := CheckQwords(page, canary, mid, to);
    if aborted { return; }
    MatchesAppend(page[..], canary, mid, after, to);
    var last;
    last, aborted := CheckBytes(page, canary, after, to, false);
  }

  /** write_sanity_canary: every byte of the page carries its canary byte. */
  method WriteSanityCanary(page: array<Byte>, canary: bv64, neon: bool)
    requires page.Length == PAGE_SIZE
    modifies page
    ensures Matches(page[..], canary, 0, PAGE_SIZE)
    ensures forall i: nat :: i < 4096 ==> page[i] == ByteOf(canary, i % 8)
  {
    hide ByteOf;
    var p: nat, qwords: nat := 0, PAGE_SIZE / 8;
    if neon {
      while qwords >= 2
        invariant p + 8 * qwords == PAGE_SIZE && p % 8 == 0 && Matches(page[..], canary, 0, p)
      {
        StoreQword(page, p, canary);
        StoreQword(page, p + 8, canary);
        p, qwords := p + 16, qwords - 2;
      }
    }
    while qwords > 0
      invariant p + 8 * qwords == PAGE_SIZE && p % 8 == 0 && Matches(page[..], canary, 0, p)
    {
      StoreQword(page, p, canary);
      p, qwords := p + 8, qwords - 1;
    }
  }

  method StoreQword(page: array<Byte>, p: nat, w: bv64)
    requires p % 8 == 0 && p + 8 <= page.Length
    modifies page
    ensures forall i: nat :: i < page.Length ==> page[i] == if p <= i < p + 8 then CanaryByte(w, i) else old(page[i])
  {
    hide ByteOf;
    for k := 0 to 8
      invariant forall i: nat :: i < page.Length ==>
        page[i] == if p <= i < p + k then CanaryByte(w, i) else old(page[i])
    {
      page[p + k] := ByteOf(w, k);
    }
  }

  /** Between the two, the caller's own bytes may hold anything: a sample passes its check
      exactly when the bytes outside the caller's region are still those first written. */
  lemma SampleIntact(written: seq<Byte>, freed: seq<Byte>, canary: bv64, n: nat, rightAligned: bool)
    requires |written| == |freed| == PAGE_SIZE && n <= PAGE_SIZE && Matches(written, canary, 0, PAGE_SIZE)
    ensures Matches(freed, canary, CheckFrom(n, rightAligned), CheckTo(n, rightAligned)) <==>
            forall i: nat :: CheckFrom(n, rightAligned) <= i < CheckTo(n, rightAligned) ==> freed[i] == written[i]
  {
  }
}
