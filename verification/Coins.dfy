/** Cached coins and the order in which the coin selectors try them. */
module Coins {
  import opened Bytes
  import opened Transactions
  import opened Addresses

  datatype Coin = Coin(point: Outpoint, value: int, kind: AddressType, confirmed: bool, confirmations: nat)

  function Total(coins: seq<Coin>): int {
    if coins == [] then 0 else Total(coins[..|coins| - 1]) + coins[|coins| - 1].value
  }

  function Points(coins: seq<Coin>): set<Outpoint> {
    set c | c in coins :: c.point
  }

  lemma PointsAppend(coins: seq<Coin>, c: Coin)
    ensures Points(coins + [c]) == Points(coins) + {c.point}
  {
    assert forall d :: d in coins + [c] <==> d in coins || d == c;
    assert c in coins + [c];
  }

  predicate OnePerPoint(coins: seq<Coin>) {
    forall i, j :: 0 <= i < j < |coins| ==> coins[i].point != coins[j].point
  }

  // ----- The order of candidates -----

  /** Lexicographic order of transaction ids. */
  predicate LexLess(a: bytes, b: bytes) {
    if a == [] then b != []
    else b != [] && (a[0] < b[0] || (a[0] == b[0] && LexLess(a[1..], b[1..])))
  }

  /** The sort key: larger value first, then transaction id, then output number. */
  predicate Before(a: Coin, b: Coin) {
    || a.value > b.value
    || (a.value == b.value && (LexLess(a.point.txid, b.point.txid) || (a.point.txid == b.point.txid && a.point.vout < b.point.vout)))
  }

  predicate InOrder(coins: seq<Coin>) {
    forall i, j :: 0 <= i < j < |coins| ==> !Before(coins[j], coins[i])
  }

  function Insert(c: Coin, coins: seq<Coin>): (r: seq<Coin>)
    ensures |r| == |coins| + 1
  {
    if coins == [] || Before(c, coins[0]) then [c] + coins else [coins[0]] + Insert(c, coins[1..])
  }

  /** Python's `sorted` under the key order. */
  function Sorted(coins: seq<Coin>): (r: seq<Coin>)
    ensures |r| == |coins|
  {
    if coins == [] then [] else Insert(coins[0], Sorted(coins[1..]))
  }

  lemma {:induction false} InsertContents(c: Coin, coins: seq<Coin>)
    ensures multiset(Insert(c, coins)) == multiset(coins) + multiset{c}
  {
    if coins != [] {
      assert coins == [coins[0]] + coins[1..];
      InsertContents(c, coins[1..]);
    }
  }

  lemma {:induction false} SortedContents(coins: seq<Coin>)
    ensures multiset(Sorted(coins)) == multiset(coins)
  {
    if coins != [] {
      assert coins == [coins[0]] + coins[1..];
      SortedContents(coins[1..]);
      InsertContents(coins[0], Sorted(coins[1..]));
    }
  }

  lemma {:induction false} LexTransitive(a: bytes, b: bytes, c: bytes)
    requires LexLess(a, b) && LexLess(b, c)
    ensures LexLess(a, c)
  {
    if a != [] && a[0] == b[0] == c[0] {
      LexTransitive(a[1..], b[1..], c[1..]);
    }
  }

  lemma {:induction false} LexTotal(a: bytes, b: bytes)
    ensures a == b || LexLess(a, b) || LexLess(b, a)
    ensures !(LexLess(a, b) && LexLess(b, a)) && !LexLess(a, a)
  {
    if a != [] && b != [] {
      LexTotal(a[1..], b[1..]);
      assert a == [a[0]] + a[1..] && b == [b[0]] + b[1..];
    }
    if a != [] {
      LexTotal(a[1..], a[1..]);
    }
  }

  /** The key order is a strict total order on coins with distinct outpoints. */
  lemma BeforeTotal(a: Coin, b: Coin)
    ensures (a.point == b.point && a.value == b.value) || Before(a, b) || Before(b, a)
    ensures !(Before(a, b) && Before(b, a))
  {
    LexTotal(a.point.txid, b.point.txid);
    LexTotal(a.point.txid, a.point.txid);
  }

  lemma NotBeforeTransitive(a: Coin, b: Coin, c: Coin)
    requires !Before(b, a) && !Before(c, b)
    ensures !Before(c, a)
  {
    if Before(c, a) {
      BeforeTotal(a, b);
      BeforeTotal(b, c);
      BeforeTotal(a, c);
      LexTotal(c.point.txid, c.point.txid);
      if LexLess(c.point.txid, a.point.txid) && LexLess(a.point.txid, b.point.txid) {
        LexTransitive(c.point.txid, a.point.txid, b.point.txid);
      }
      if LexLess(c.point.txid, a.point.txid) && LexLess(b.point.txid, c.point.txid) {
        LexTransitive(b.point.txid, c.point.txid, a.point.txid);
      }
    }
  }

  lemma {:induction false} InsertInOrder(c: Coin, coins: seq<Coin>)
    requires InOrder(coins)
    ensures InOrder(Insert(c, coins))
  {
    hide Before;
    if coins != [] {
      BeforeTotal(c, coins[0]);
      var r := Insert(c, coins);
      if Before(c, coins[0]) {
        forall i, j | 0 <= i < j < |r| ensures !Before(r[j], r[i]) {
          if i == 0 && j > 1 {
            NotBeforeTransitive(c, coins[0], coins[j - 1]);
          }
        }
      } else {
        var rest := Insert(c, coins[1..]);
        InsertInOrder(c, coins[1..]);
        InsertContents(c, coins[1..]);
        forall i, j | 0 <= i < j < |r| ensures !Before(r[j], r[i]) {
          if i == 0 {
            assert rest[j - 1] in multiset(rest);
            if rest[j - 1] != c {
              assert rest[j - 1] in multiset(coins[1..]);
            }
          }
        }
      }
    }
  }

  lemma {:induction false} SortedInOrder(coins: seq<Coin>)
    ensures InOrder(Sorted(coins))
  {
    if coins != [] {
      SortedInOrder(coins[1..]);
      InsertInOrder(coins[0], Sorted(coins[1..]));
    }
  }

  // ----- The order, seen from outside -----

  /** Position `k` is the first in which the ids differ, and decides for `a`; a proper prefix comes first. */
  predicate DecidedAt(a: bytes, b: bytes, k: nat) {
    && k <= |a| && k < |b| && (forall i :: 0 <= i < k ==> a[i] == b[i])
    && (k == |a| || a[k] < b[k])
  }

  /** Larger value first; then the smaller id, byte by byte; then the smaller output number. */
  ghost predicate ListedBefore(a: Coin, b: Coin) {
    || a.value > b.value
    || (a.value == b.value && exists k: nat :: DecidedAt(a.point.txid, b.point.txid, k))
    || (a.value == b.value && a.point.txid == b.point.txid && a.point.vout <= b.point.vout)
  }

  lemma {:induction false} LexMeans(a: bytes, b: bytes)
    ensures LexLess(a, b) <==> exists k: nat :: DecidedAt(a, b, k)
  {
    if a != [] && b != [] && a[0] == b[0] {
      var c, d := a[1..], b[1..];
      LexMeans(c, d);
      if LexLess(a, b) {
        var k: nat :| DecidedAt(c, d, k);
        forall i | 0 <= i < k + 1 ensures a[i] == b[i] {
          assert i > 0 ==> a[i] == c[i - 1] && b[i] == d[i - 1];
        }
        assert DecidedAt(a, b, k + 1);
      }
      if k: nat :| DecidedAt(a, b, k) {
        assert k > 0;
        forall i | 0 <= i < k - 1 ensures c[i] == d[i] {
          assert a[i + 1] == b[i + 1];
        }
        assert DecidedAt(c, d, k - 1);
      }
    } else if LexLess(a, b) {
      assert DecidedAt(a, b, 0);
    }
  }

  /** The sorted list is in the order of the three keys, each of which decides only when those before are equal. */
  lemma SortedByKeys(coins: seq<Coin>)
    ensures var s := Sorted(coins); forall i, j :: 0 <= i < j < |s| ==> ListedBefore(s[i], s[j])
  {
    SortedInOrder(coins);
    hide Sorted;
    var s := Sorted(coins);
    forall i, j | 0 <= i < j < |s| ensures ListedBefore(s[i], s[j]) {
      LexMeans(s[i].point.txid, s[j].point.txid);
      LexTotal(s[i].point.txid, s[j].point.txid);
      assert !Before(s[j], s[i]);
    }
  }

  lemma OnePerPointMultiset(a: seq<Coin>, b: seq<Coin>)
    requires multiset(a) == multiset(b) && OnePerPoint(a)
    ensures OnePerPoint(b)
  {
    forall i, j | 0 <= i < j < |b| ensures b[i].point != b[j].point {
      assert b[i] in multiset(a) && b[j] in multiset(a);
      if b[i] == b[j] {
        DuplicateCounts(b, i, j);
        NoDuplicateCounts(a, b[i]);
      }
    }
  }

  lemma DuplicateCounts(s: seq<Coin>, i: nat, j: nat)
    requires i < j < |s| && s[i] == s[j]
    ensures multiset(s)[s[i]] >= 2
  {
    assert s == s[..i] + [s[i]] + s[i + 1..j] + [s[j]] + s[j + 1..];
  }

  lemma {:induction false} NoDuplicateCounts(s: seq<Coin>, c: Coin)
    requires OnePerPoint(s)
    ensures multiset(s)[c] <= 1
  {
    if s != [] {
      assert s == [s[0]] + s[1..];
      NoDuplicateCounts(s[1..], c);
      if s[0] == c {
        assert c !in s[1..];
        assert multiset(s[1..])[c] == 0;
      }
    }
  }

  lemma FirstIsLeast(a: seq<Coin>, c: Coin)
    requires InOrder(a) && a != [] && c in a
    ensures a[0] == c || !Before(c, a[0])
  {
  }

  lemma SameFirst(a: seq<Coin>, b: seq<Coin>)
    requires InOrder(a) && InOrder(b) && OnePerPoint(a) && multiset(a) == multiset(b) && a != [] && b != []
    ensures a[0] == b[0]
  {
    hide InOrder, Before, OnePerPoint;
    assert a[0] in multiset(b) && b[0] in multiset(a);
    FirstIsLeast(a, b[0]);
    FirstIsLeast(b, a[0]);
    BeforeTotal(a[0], b[0]);
    SamePointSameCoin(a, a[0], b[0]);
  }

  lemma DropFirst(a: seq<Coin>)
    requires a != []
    ensures multiset(a[1..]) == multiset(a) - multiset{a[0]}
    ensures InOrder(a) ==> InOrder(a[1..])
    ensures OnePerPoint(a) ==> OnePerPoint(a[1..])
  {
    assert a == [a[0]] + a[1..];
  }

  /** Only one sequence lists these coins in order. */
  lemma {:induction false} OrderIsUnique(a: seq<Coin>, b: seq<Coin>)
    requires InOrder(a) && InOrder(b) && OnePerPoint(a) && multiset(a) == multiset(b)
    ensures a == b
  {
    hide InOrder, Before, OnePerPoint;
    assert |a| == |multiset(a)| == |b|;
    if a != [] {
      SameFirst(a, b);
      DropFirst(a);
      DropFirst(b);
      OrderIsUnique(a[1..], b[1..]);
      assert a == [a[0]] + a[1..] && b == [b[0]] + b[1..];
    }
  }

  // ----- The exchange argument -----

  lemma {:induction false} TotalAppend(a: seq<Coin>, b: seq<Coin>)
    ensures Total(a + b) == Total(a) + Total(b)
  {
    if b == [] {
      assert a + b == a;
    } else {
      var n := |b| - 1;
      assert (a + b)[..|a + b| - 1] == a + b[..n];
      TotalAppend(a, b[..n]);
    }
  }

  lemma {:induction false} TotalInsert(c: Coin, coins: seq<Coin>)
    ensures Total(Insert(c, coins)) == c.value + Total(coins)
  {
    TotalAppend([c], coins);
    if coins != [] && !Before(c, coins[0]) {
      assert coins == [coins[0]] + coins[1..];
      TotalInsert(c, coins[1..]);
      TotalAppend([coins[0]], Insert(c, coins[1..]));
      TotalAppend([coins[0]], coins[1..]);
    }
  }

  lemma {:induction false} TotalSorted(coins: seq<Coin>)
    ensures Total(Sorted(coins)) == Total(coins)
  {
    if coins != [] {
      assert coins == [coins[0]] + coins[1..];
      TotalSorted(coins[1..]);
      TotalInsert(coins[0], Sorted(coins[1..]));
      TotalAppend([coins[0]], coins[1..]);
    }
  }

  lemma TotalAround(a: seq<Coin>, c: Coin, b: seq<Coin>)
    ensures Total(a + [c] + b) == Total(a + b) + c.value
  {
    assert (a + [c])[..|a|] == a;
    assert Total(a + [c]) == Total(a) + c.value;
    hide Total;
    TotalAppend(a + [c], b);
    TotalAppend(a, b);
  }

  lemma TotalRemove(coins: seq<Coin>, i: nat)
    requires i < |coins|
    ensures Total(coins) == Total(coins[..i] + coins[i + 1..]) + coins[i].value
  {
    hide Total;
    assert coins == coins[..i] + [coins[i]] + coins[i + 1..];
    TotalAround(coins[..i], coins[i], coins[i + 1..]);
  }

  lemma SamePointSameCoin(coins: seq<Coin>, a: Coin, b: Coin)
    requires OnePerPoint(coins) && a in coins && b in coins
    ensures a.point == b.point ==> a == b
  {
  }

  lemma WithoutOne(coins: seq<Coin>, i: nat)
    requires OnePerPoint(coins) && i < |coins|
    ensures OnePerPoint(coins[..i] + coins[i + 1..])
    ensures forall c :: c in coins[..i] + coins[i + 1..] <==> c in coins && c != coins[i]
  {
    var others := coins[..i] + coins[i + 1..];
    forall c | c in coins && c != coins[i] ensures c in others {
      var j :| 0 <= j < |coins| && coins[j] == c;
      assert others[if j < i then j else j - 1] == c;
    }
  }

  lemma WithoutLast(rest: seq<Coin>, last: Coin, chosen: seq<Coin>)
    requires OnePerPoint(rest + [last]) && forall c :: c in chosen ==> c in rest + [last]
    ensures OnePerPoint(rest) && forall i :: 0 <= i < |rest| ==> rest[i] != last
    ensures forall c :: c in chosen && c != last ==> c in rest
  {
    var all := rest + [last];
    assert forall i :: 0 <= i < |rest| ==> rest[i] == all[i];
    assert all[|rest|] == last;
  }

  lemma OthersChosen(rest: seq<Coin>, last: Coin, chosen: seq<Coin>) returns (others: seq<Coin>)
    requires OnePerPoint(rest + [last]) && OnePerPoint(chosen) && last in chosen
    requires forall c :: c in chosen ==> c in rest + [last]
    ensures OnePerPoint(others) && (forall c :: c in others ==> c in rest)
    ensures forall c :: c in chosen && c != last ==> c in others
    ensures |chosen| == |others| + 1 && Total(chosen) == Total(others) + last.value
  {
    var i :| 0 <= i < |chosen| && chosen[i] == last;
    WithoutLast(rest, last, chosen);
    WithoutOne(chosen, i);
    TotalRemove(chosen, i);
    others := chosen[..i] + chosen[i + 1..];
  }

  lemma PrefixGrows(rest: seq<Coin>, last: Coin, k: nat)
    requires k <= |rest|
    ensures (rest + [last])[..k] == rest[..k]
    ensures Total((rest + [last])[..k + 1]) == Total(rest[..k]) + (rest + [last])[k].value
  {
    var all := rest + [last];
    assert all[..k + 1][..k] == rest[..k];
  }

  /** The first `m` coins are chosen, the others are in descending order of value. */
  predicate Ranked(all: seq<Coin>, m: nat, chosen: seq<Coin>) {
    && m <= |all| && OnePerPoint(all) && OnePerPoint(chosen)
    && (forall i, j :: m <= i < j < |all| ==> all[i].value >= all[j].value)
    && (forall c :: c in chosen ==> c in all)
    && (forall i :: 0 <= i < m ==> all[i] in chosen)
  }

  lemma RankedNone(all: seq<Coin>, m: nat, chosen: seq<Coin>)
    requires Ranked(all, m, chosen)
    ensures all == [] ==> chosen == [] && m == 0
  {
    if chosen != [] {
      assert chosen[0] in all;
    }
  }

  lemma RankedWithoutLast(rest: seq<Coin>, last: Coin, m: nat, chosen: seq<Coin>) returns (others: seq<Coin>)
    requires Ranked(rest + [last], m, chosen)
    ensures Ranked(rest, if m < |rest| then m else |rest|, others)
    ensures if last in chosen then |chosen| == |others| + 1 && Total(chosen) == Total(others) + last.value else others == chosen && m <= |rest|
    ensures forall j :: m <= j <= |rest| ==> (rest + [last])[j].value >= last.value
  {
    hide Total;
    var all := rest + [last];
    WithoutLast(rest, last, chosen);
    assert forall i :: 0 <= i < |rest| ==> all[i] == rest[i];
    assert all[|rest|] == last;
    if last in chosen {
      others := OthersChosen(rest, last, chosen);
    } else {
      others := chosen;
    }
  }

  /**
   * Of all selections of one size that contain the first `m` coins, none is worth more than the
   * prefix, when the coins after the first `m` are in descending order of value.
   */
  lemma {:induction false} PrefixIsBest(all: seq<Coin>, m: nat, chosen: seq<Coin>)
    requires m <= |all| && Ranked(all, m, chosen)
    ensures m <= |chosen| <= |all|
    ensures Total(chosen) <= Total(all[..|chosen|])
  {
    hide Ranked;
    if all == [] {
      RankedNone(all, m, chosen);
    } else {
      hide Total;
      var n := |all| - 1;
      var last, rest := all[n], all[..n];
      assert all == rest + [last];
      var others := RankedWithoutLast(rest, last, m, chosen);
      PrefixIsBest(rest, if m < n then m else n, others);
      PrefixGrows(rest, last, |others|);
    }
  }

  lemma SameMembersSameMultiset(a: seq<Coin>, b: seq<Coin>)
    requires OnePerPoint(a) && OnePerPoint(b) && forall c :: c in a <==> c in b
    ensures multiset(a) == multiset(b)
  {
    forall c ensures multiset(a)[c] == multiset(b)[c] {
      NoDuplicateCounts(a, c);
      NoDuplicateCounts(b, c);
      assert c in multiset(a) <==> c in a;
      assert c in multiset(b) <==> c in b;
    }
  }

  /** Sorting forgets the order in which coins were listed. */
  lemma SortedIgnoresOrder(a: seq<Coin>, b: seq<Coin>)
    requires OnePerPoint(a) && OnePerPoint(b) && forall c :: c in a <==> c in b
    ensures Sorted(a) == Sorted(b)
  {
    SameMembersSameMultiset(a, b);
    SortedContents(a);
    SortedContents(b);
    SortedInOrder(a);
    SortedInOrder(b);
    OnePerPointMultiset(a, Sorted(a));
    OrderIsUnique(Sorted(a), Sorted(b));
  }
}
