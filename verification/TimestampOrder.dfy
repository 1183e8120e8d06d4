/**
  The meaning of the interleaved-mode RX to TX timestamp map: a sequence of stamps
  ordered by wrapping 64-bit distance, searched by a linear scan and edited by three
  insertion policies.  `TimestampMap.dfy` holds the circular buffer that refines this.
 */
module TimestampOrder {
  import opened Common

  /** `NTPTS_FUTURE_LIMIT`: one second in 64-bit NTP units. */
  const FUTURE_LIMIT: int := TWO32
  /** `NTPTS_INSERT_LIMIT`. */
  const INSERT_LIMIT: nat := 64

  /** Result of `find_ntp_rx_ts`; `Overflow` is the checked-arithmetic panic. */
  datatype Lookup = Hit(index: nat) | Miss(index: nat) | Overflow

  /** `NTP_Timestamp_Source`. */
  datatype TimestampSource = Daemon | Kernel | Hardware

  /** `NtpTimestamps`; the two flag bits are two booleans. */
  datatype Stamp = Stamp(rx: U64, disabled: bool, validTx: bool, source: TimestampSource, epoch: U16, offset: I32)

  /** How far `a` lies ahead of `b` on the 64-bit circle. */
  function Ahead(a: U64, b: U64): U64 { WrapSub64(a, b) }

  /** `key` is strictly newer than `rx` by signed wrapping difference. */
  predicate Newer(key: U64, rx: U64) { Signed64(WrapSub64(key, rx)) > 0 }

  /** The key of stamp `i`; naming it lets a proof pick the instances of `Ordered` it needs. */
  function Rx(s: seq<Stamp>, i: nat): U64
    requires i < |s|
  {
    s[i].rx
  }

  /** No key is zero and every stamp is strictly newer than all the stamps before it. */
  ghost predicate Ordered(s: seq<Stamp>) {
    && (forall i: nat :: i < |s| ==> Rx(s, i) != 0)
    && (forall i: nat, j: nat :: i < j < |s| ==> Newer(Rx(s, j), Rx(s, i)))
  }

  /** The same order read from the oldest stamp: strictly increasing distance, span below 2^63. */
  ghost predicate AscendsFromFirst(s: seq<Stamp>) {
    && (forall i :: 0 <= i < |s| ==> s[i].rx != 0 && Ahead(s[i].rx, s[0].rx) < TWO63)
    && (forall i, j :: 0 <= i < j < |s| ==> Ahead(s[i].rx, s[0].rx) < Ahead(s[j].rx, s[0].rx))
  }

  ghost predicate HasKey(s: seq<Stamp>, key: U64) {
    exists i :: 0 <= i < |s| && s[i].rx == key
  }

  /** Linear search from index `i`: the first stamp that `key` is not strictly newer than. */
  function ScanFrom(s: seq<Stamp>, key: U64, i: nat): (r: nat)
    requires i <= |s|
    ensures i <= r <= |s|
    ensures forall j :: i <= j < r ==> Newer(key, s[j].rx)
    ensures r < |s| ==> !Newer(key, s[r].rx)
    decreases |s| - i
  {
    if i == |s| || !Newer(key, s[i].rx) then i else ScanFrom(s, key, i + 1)
  }

  function Scan(s: seq<Stamp>, key: U64): (r: nat)
    ensures r <= |s|
  {
    ScanFrom(s, key, 0)
  }

  /** The linear scan's answer. */
  function Located(s: seq<Stamp>, key: U64): Lookup {
    var i := Scan(s, key);
    if i < |s| && s[i].rx == key then Hit(i) else Miss(i)
  }

  lemma OrderedByDistance(s: seq<Stamp>)
    ensures Ordered(s) <==> AscendsFromFirst(s)
  {
    if Ordered(s) {
      forall i | 0 <= i < |s| ensures s[i].rx != 0 && Ahead(s[i].rx, s[0].rx) < TWO63 {
        assert Rx(s, i) != 0 && (i == 0 || Newer(Rx(s, i), Rx(s, 0)));
      }
      forall i, j | 0 <= i < j < |s| ensures Ahead(s[i].rx, s[0].rx) < Ahead(s[j].rx, s[0].rx) {
        assert Newer(Rx(s, j), Rx(s, i)) && Newer(Rx(s, j), Rx(s, 0)) && (i == 0 || Newer(Rx(s, i), Rx(s, 0)));
      }
    }
  }

  /** For a key inside the half circle of the oldest stamp, order is distance from that stamp. */
  lemma NewerByDistance(s: seq<Stamp>, key: U64, i: nat)
    requires Ordered(s) && i < |s|
    requires Ahead(key, s[0].rx) < TWO63
    ensures Newer(key, s[i].rx) <==> Ahead(s[i].rx, s[0].rx) < Ahead(key, s[0].rx)
    ensures s[i].rx == key <==> Ahead(s[i].rx, s[0].rx) == Ahead(key, s[0].rx)
  {
    OrderedByDistance(s);
  }

  /** Any index that separates older stamps from the rest is the linear scan's answer. */
  lemma ScanIs(s: seq<Stamp>, key: U64, r: nat)
    requires Ordered(s) && r <= |s|
    requires r > 0 ==> Ahead(key, s[0].rx) < TWO63 && Newer(key, s[r - 1].rx)
    requires r < |s| ==> !Newer(key, s[r].rx)
    ensures Scan(s, key) == r
  {
    forall i | 0 <= i < r ensures Newer(key, s[i].rx) {
      NewerByDistance(s, key, i);
      NewerByDistance(s, key, r - 1);
      OrderedByDistance(s);
    }
  }

  /** The scan stops exactly on the key when the key is stored, at its one index. */
  lemma ScanFindsKey(s: seq<Stamp>, key: U64)
    requires Ordered(s)
    ensures HasKey(s, key) <==> Located(s, key).Hit?
    ensures forall i :: 0 <= i < |s| && s[i].rx == key ==> i == Scan(s, key)
  {
    forall i | 0 <= i < |s| && s[i].rx == key ensures i == Scan(s, key) {
      if i > 0 { assert Newer(Rx(s, i), Rx(s, 0)) && Newer(Rx(s, i), Rx(s, i - 1)); }
      ScanIs(s, key, i);
    }
  }

  /** Three keys in circular order from `base`, seen from a key behind the first of them. */
  lemma CircleOrder(base: U64, x: U64, y: U64, key: U64)
    requires Ahead(x, base) < Ahead(y, base) < TWO63
    requires if Newer(key, base) then Ahead(key, base) < Ahead(x, base) else key != base
    ensures 0 < Ahead(x, key) < Ahead(y, key)
  {
  }

  /** Stamps at or after the scan point lie ahead of the key, by increasing distance. */
  lemma AheadFromScan(s: seq<Stamp>, key: U64, j: nat, k: nat)
    requires Ordered(s) && !HasKey(s, key)
    requires Scan(s, key) <= j < k < |s|
    ensures 0 < Ahead(s[j].rx, key) < Ahead(s[k].rx, key)
  {
    var at := Scan(s, key);
    OrderedByDistance(s);
    assert s[at].rx != key && s[0].rx != key;
    if at > 0 { NewerByDistance(s, key, at); }
    CircleOrder(s[0].rx, s[j].rx, s[k].rx, key);
  }

  /** How many of the first `n` stamps stay once the far-future tail is cut, never below `at`. */
  function KeptCount(s: seq<Stamp>, n: nat, at: nat, key: U64): (r: nat)
    requires n <= |s|
    ensures r <= n && (at <= n ==> at <= r)
    ensures forall i :: r <= i < n ==> Ahead(s[i].rx, key) > FUTURE_LIMIT
    ensures at < r ==> Ahead(s[r - 1].rx, key) <= FUTURE_LIMIT
  {
    if at < n && Ahead(s[n - 1].rx, key) > FUTURE_LIMIT then KeptCount(s, n - 1, at, key) else n
  }

  /** The stamps that survive trimming for `key` at its scan point. */
  function Trimmed(s: seq<Stamp>, key: U64): (t: seq<Stamp>)
    ensures Scan(s, key) <= |t| <= |s|
  {
    s[..KeptCount(s, |s|, Scan(s, key), key)]
  }

  /** Which stamps stay: those in `lo..mid` before the new one and those from `hi` on after it. */
  datatype Plan = Plan(lo: nat, mid: nat, hi: nat)

  /** Insert before `at`, dropping the oldest stamp when the buffer is full. */
  function PushPlan(n: nat, at: nat, cap: nat): Plan {
    if n < cap then Plan(0, at, at) else Plan(Min(1, at), at, Max(1, at))
  }

  /** Insert when few stamps have to move, otherwise overwrite the stamp before `at`. */
  function SavePlan(n: nat, at: nat, cap: nat): Plan {
    if at + INSERT_LIMIT >= n then PushPlan(n, at, cap) else Plan(0, Max(at - 1, 0), Max(1, at))
  }

  predicate Fits(p: Plan, n: nat) { p.lo <= p.mid <= p.hi <= n }

  function Placed(t: seq<Stamp>, p: Plan, e: Stamp): seq<Stamp>
    requires Fits(p, |t|)
  {
    t[p.lo..p.mid] + [e] + t[p.hi..]
  }

  /** The map after saving a stamp whose key is not stored yet. */
  function Saved(s: seq<Stamp>, cap: nat, e: Stamp): seq<Stamp>
    requires |s| <= cap && 0 < cap
  {
    var t := Trimmed(s, e.rx);
    Placed(t, SavePlan(|t|, Scan(s, e.rx), cap), e)
  }

  /** `at` separates the stamps older than `key` from the newer ones. */
  ghost predicate Splits(t: seq<Stamp>, at: nat, key: U64) {
    && at <= |t|
    && (forall i :: 0 <= i < at ==> Newer(key, t[i].rx))
    && (forall i :: at <= i < |t| ==> Newer(t[i].rx, key))
  }

  lemma KeptIsNewer(s: seq<Stamp>, key: U64, k: nat)
    requires Ordered(s) && !HasKey(s, key)
    requires Scan(s, key) <= k < |Trimmed(s, key)|
    ensures Newer(s[k].rx, key)
  {
    assert s[k].rx != key;
    var last := |Trimmed(s, key)| - 1;
    assert Ahead(s[last].rx, key) <= FUTURE_LIMIT;
    if k < last { AheadFromScan(s, key, k, last); }
  }

  /** After trimming, the scan point splits what is left. */
  lemma TrimmedSplits(s: seq<Stamp>, key: U64)
    requires Ordered(s) && !HasKey(s, key)
    ensures Splits(Trimmed(s, key), Scan(s, key), key)
    ensures Ordered(Trimmed(s, key))
  {
    var at, t := Scan(s, key), Trimmed(s, key);
    forall k | at <= k < |t| ensures Newer(t[k].rx, key) {
      KeptIsNewer(s, key, k);
    }
    forall i: nat | i < |t| ensures Rx(t, i) == Rx(s, i) {}
  }

  /** Placing `e` between older and newer stamps of an ordered list keeps the order. */
  lemma PlaceKeepsOrder(t: seq<Stamp>, at: nat, p: Plan, e: Stamp)
    requires Ordered(t) && e.rx != 0 && Splits(t, at, e.rx)
    requires Fits(p, |t|) && p.mid <= at <= p.hi
    ensures Ordered(Placed(t, p, e))
  {
    var r, n := Placed(t, p, e), p.mid - p.lo;
    forall i | 0 <= i < |r| && i != n ensures r[i] == t[if i < n then p.lo + i else p.hi + i - n - 1] {}
    forall i: nat | i < |r| ensures Rx(r, i) != 0 {
      if i != n { assert Rx(t, if i < n then p.lo + i else p.hi + i - n - 1) != 0; }
    }
    forall i: nat, j: nat | i < j < |r| ensures Newer(Rx(r, j), Rx(r, i)) {
      if i != n && j != n {
        assert Newer(Rx(t, if j < n then p.lo + j else p.hi + j - n - 1),
                     Rx(t, if i < n then p.lo + i else p.hi + i - n - 1));
      }
    }
  }

  /** Saving a fresh stamp keeps the order and the capacity, and the scan then finds the stamp. */
  lemma SaveKeepsOrder(s: seq<Stamp>, cap: nat, e: Stamp)
    requires Ordered(s) && |s| <= cap && 0 < cap
    requires e.rx != 0 && !HasKey(s, e.rx)
    ensures Ordered(Saved(s, cap, e)) && |Saved(s, cap, e)| <= cap
    ensures e in Saved(s, cap, e)
  {
    TrimmedSplits(s, e.rx);
    var t, at := Trimmed(s, e.rx), Scan(s, e.rx);
    PlaceKeepsOrder(t, at, SavePlan(|t|, at, cap), e);
  }

  /** A stamp outside the plan's gap is kept. */
  lemma PlaceKeeps(t: seq<Stamp>, p: Plan, e: Stamp, i: nat)
    requires Fits(p, |t|)
    requires p.lo <= i < p.mid || p.hi <= i < |t|
    ensures t[i] in Placed(t, p, e)
  {}

  /** The index of the one stamp given up besides the trimmed ones; `|s|` when none is. */
  function Victim(s: seq<Stamp>, cap: nat, key: U64): nat
    requires |s| <= cap && 0 < cap
  {
    var at, n := Scan(s, key), |Trimmed(s, key)|;
    if at + INSERT_LIMIT < n then Max(at - 1, 0) else if n == cap then 0 else |s|
  }

  /**
    What a save costs: every old stamp is kept unchanged except those more than one second
    ahead of the new one and at most one other: the one right before the new one if more than 64
    of those left would have to move, else the oldest if they fill the buffer.  Nothing but the
    new stamp is added.
   */
  lemma SaveLosses(s: seq<Stamp>, cap: nat, e: Stamp)
    requires |s| <= cap && 0 < cap
    ensures var r, v := Saved(s, cap, e), Victim(s, cap, e.rx);
            && (forall i :: 0 <= i < |s| && i != v && s[i] !in r ==>
                  Scan(s, e.rx) <= i && Ahead(s[i].rx, e.rx) > FUTURE_LIMIT)
            && (forall x :: x in r ==> x == e || x in s)
            && (v < |s| <==> |Trimmed(s, e.rx)| == cap || Scan(s, e.rx) + INSERT_LIMIT < |Trimmed(s, e.rx)|)
            && (v < |s| ==> v == if Scan(s, e.rx) + INSERT_LIMIT < |Trimmed(s, e.rx)| then Max(Scan(s, e.rx) - 1, 0) else 0)
            && |r| == |Trimmed(s, e.rx)| + if v < |s| then 0 else 1
  {
    forall i | 0 <= i < |s| && i != Victim(s, cap, e.rx) && s[i] !in Saved(s, cap, e)
      ensures Scan(s, e.rx) <= i && Ahead(s[i].rx, e.rx) > FUTURE_LIMIT
    {
      SaveKeeps(s, cap, e, i);
    }
    forall x | x in Saved(s, cap, e) ensures x == e || x in s {
      SaveAddsOne(s, cap, e, x);
    }
  }

  lemma SaveKeeps(s: seq<Stamp>, cap: nat, e: Stamp, i: nat)
    requires |s| <= cap && 0 < cap && i < |s| && i != Victim(s, cap, e.rx)
    ensures s[i] in Saved(s, cap, e) || (Scan(s, e.rx) <= i && Ahead(s[i].rx, e.rx) > FUTURE_LIMIT)
  {
    var t, at := Trimmed(s, e.rx), Scan(s, e.rx);
    if i < |t| { PlaceKeeps(t, SavePlan(|t|, at, cap), e, i); }
  }

  lemma SaveAddsOne(s: seq<Stamp>, cap: nat, e: Stamp, x: Stamp)
    requires |s| <= cap && 0 < cap && x in Saved(s, cap, e)
    ensures x == e || x in s
  {
    assert x == e || x in Trimmed(s, e.rx);
  }

  /** The map with the stamp of `key`, when there is one, replaced. */
  function Amended(s: seq<Stamp>, key: U64, amend: Stamp -> Stamp): seq<Stamp> {
    match Located(s, key)
    case Hit(i) => s[i := amend(s[i])]
    case _ => s
  }

  /** The map with the stamp of `key` marked as disabled. */
  function Disabled(s: seq<Stamp>, key: U64): seq<Stamp> {
    Amended(s, key, (v: Stamp) => v.(disabled := true))
  }

  ghost function Keys(s: seq<Stamp>): set<U64> { set i | 0 <= i < |s| :: s[i].rx }

  lemma AmendedKeys(s: seq<Stamp>, key: U64, amend: Stamp -> Stamp)
    requires forall v: Stamp :: amend(v).rx == v.rx
    ensures Keys(Amended(s, key, amend)) == Keys(s)
  {}

  lemma SavedKeysOnly(s: seq<Stamp>, cap: nat, e: Stamp)
    requires |s| <= cap && 0 < cap
    ensures Keys(Saved(s, cap, e)) <= Keys(s) + {e.rx}
  {
    SaveLosses(s, cap, e);
    var r := Saved(s, cap, e);
    forall k | k in Keys(r) ensures k in Keys(s) + {e.rx} {
      var i :| 0 <= i < |r| && r[i].rx == k;
      assert r[i] == e || r[i] in s;
    }
  }

  /** Changing the stamp of one key moves no key, and changes the stamp of no other. */
  lemma AmendedAt(s: seq<Stamp>, key: U64, amend: Stamp -> Stamp, other: U64)
    requires Ordered(s) && forall v: Stamp :: amend(v).rx == v.rx
    ensures var r := Amended(s, key, amend);
            && Ordered(r) && |r| == |s| && Located(r, other) == Located(s, other)
            && (Located(s, other).Hit? ==>
                  var i := Located(s, other).index; r[i] == if other == key then amend(s[i]) else s[i])
  {
    var r := Amended(s, key, amend);
    forall i | 0 <= i < |s| ensures r[i].rx == s[i].rx {}
    SameKeysSameOrder(s, r);
    ScanFindsKey(s, other);
    ScanFindsKey(r, other);
    if HasKey(s, other) {
      var i :| 0 <= i < |s| && s[i].rx == other;
      assert r[i].rx == other;
    } else {
      assert !HasKey(r, other);
      SameScan(s, r, other, 0);
    }
  }

  lemma {:induction false} SameScan(s: seq<Stamp>, r: seq<Stamp>, key: U64, i: nat)
    requires i <= |s| == |r| && forall j | 0 <= j < |s| :: r[j].rx == s[j].rx
    ensures ScanFrom(r, key, i) == ScanFrom(s, key, i)
    decreases |s| - i
  {
    if i < |s| { SameScan(s, r, key, i + 1); }
  }

  /** The keys that a lookup may answer for: stored and not disabled. */
  ghost function LiveKeys(s: seq<Stamp>): set<U64> { set i | 0 <= i < |s| && !s[i].disabled :: s[i].rx }

  /** Disabling takes exactly this key out of the live ones. */
  lemma DisabledDies(s: seq<Stamp>, key: U64)
    requires Ordered(s)
    ensures LiveKeys(Disabled(s, key)) == LiveKeys(s) - {key}
  {
    var r, dead := Disabled(s, key), (v: Stamp) => v.(disabled := true);
    ScanFindsKey(s, key);
    AmendedAt(s, key, dead, key);
    forall k | k in LiveKeys(s) - {key} ensures k in LiveKeys(r) {
      var i :| 0 <= i < |s| && !s[i].disabled && s[i].rx == k;
      assert r[i] == s[i];
    }
    forall k | k in LiveKeys(r) ensures k in LiveKeys(s) - {key} {
      var i :| 0 <= i < |r| && !r[i].disabled && r[i].rx == k;
      assert s[i].rx == k && (k == key ==> i == Scan(s, key));
    }
  }

  /** A change that neither disables nor enables leaves the live keys. */
  lemma AmendedLives(s: seq<Stamp>, key: U64, amend: Stamp -> Stamp)
    requires forall v: Stamp :: amend(v).rx == v.rx && amend(v).disabled == v.disabled
    ensures LiveKeys(Amended(s, key, amend)) == LiveKeys(s)
  {
    var r := Amended(s, key, amend);
    forall i | 0 <= i < |s| ensures r[i].rx == s[i].rx && r[i].disabled == s[i].disabled {}
    forall k | k in LiveKeys(s) ensures k in LiveKeys(r) {
      var i :| 0 <= i < |s| && !s[i].disabled && s[i].rx == k;
      assert !r[i].disabled && r[i].rx == k;
    }
    forall k | k in LiveKeys(r) ensures k in LiveKeys(s) {
      var i :| 0 <= i < |r| && !r[i].disabled && r[i].rx == k;
      assert !s[i].disabled && s[i].rx == k;
    }
  }

  /** A save adds at most its own key to the live ones. */
  lemma SavedLives(s: seq<Stamp>, cap: nat, e: Stamp)
    requires |s| <= cap && 0 < cap
    ensures LiveKeys(Saved(s, cap, e)) <= LiveKeys(s) + {e.rx}
  {
    SaveLosses(s, cap, e);
    var r := Saved(s, cap, e);
    forall k | k in LiveKeys(r) ensures k in LiveKeys(s) + {e.rx} {
      var i :| 0 <= i < |r| && !r[i].disabled && r[i].rx == k;
      assert r[i] == e || r[i] in s;
    }
  }

  /** After a save nothing newer than the new stamp is more than one second ahead of it. */
  lemma SaveTrims(s: seq<Stamp>, cap: nat, e: Stamp, x: Stamp)
    requires Ordered(s) && |s| <= cap && 0 < cap && !HasKey(s, e.rx)
    requires x in Saved(s, cap, e) && Newer(x.rx, e.rx)
    ensures Ahead(x.rx, e.rx) <= FUTURE_LIMIT
  {
    var t, at := Trimmed(s, e.rx), Scan(s, e.rx);
    SaveAddsOne(s, cap, e, x);
    assert x in t;
    var k :| 0 <= k < |t| && t[k] == x;
    assert at <= k;
    if k < |t| - 1 { AheadFromScan(s, e.rx, k, |t| - 1); }
  }

  /** Order depends on the keys alone. */
  lemma SameKeysSameOrder(s: seq<Stamp>, r: seq<Stamp>)
    requires Ordered(s) && |s| == |r|
    requires forall i :: 0 <= i < |s| ==> r[i].rx == s[i].rx
    ensures Ordered(r)
  {
    forall i: nat | i < |r| ensures Rx(r, i) == Rx(s, i) {}
  }

  /** The stamps straddle an NTP era: the newest key is numerically below the oldest. */
  predicate Straddles(s: seq<Stamp>) {
    s != [] && s[|s| - 1].rx < s[0].rx
  }

  /** `key` lies strictly between the oldest and the newest stamp. */
  predicate Inside(s: seq<Stamp>, key: U64) {
    s != [] && 0 < Ahead(key, s[0].rx) < Ahead(s[|s| - 1].rx, s[0].rx)
  }

  /**
    When an uncached search subtracts a larger key from a smaller one: `rx_hi - rx_lo` is a
    checked subtraction, and the first probe interpolates once more than three stamps lie
    between the ends.
   */
  predicate EraTrap(s: seq<Stamp>, key: U64) {
    |s| >= 5 && Straddles(s) && Inside(s, key)
  }

  /** Without an era boundary inside the list, keys ascend numerically and never underflow. */
  lemma SameEraAscends(s: seq<Stamp>, i: nat, j: nat)
    requires Ordered(s) && i <= j < |s| && !Straddles(s)
    ensures s[0].rx <= s[i].rx <= s[j].rx
    ensures s[j].rx - s[i].rx >= j - i
    decreases j - i
  {
    OrderedByDistance(s);
    if i < j {
      assert Newer(Rx(s, j), Rx(s, j - 1));
      SameEraAscends(s, i, j - 1);
    }
  }

  /** The key lies on or between the stamps at `lo` and `hi`. */
  ghost predicate Bracket(s: seq<Stamp>, key: U64, lo: nat, hi: nat) {
    && lo <= hi < |s|
    && Ahead(s[lo].rx, s[0].rx) <= Ahead(key, s[0].rx) <= Ahead(s[hi].rx, s[0].rx) < TWO63
  }

  /** What a search must answer: where the linear scan stops, except in the era trap. */
  function Answer(s: seq<Stamp>, key: U64): Lookup {
    if EraTrap(s, key) then Overflow else Located(s, key)
  }

  /** The two signed comparisons with the ends either settle the search or give a bracket. */
  lemma WholeBracket(s: seq<Stamp>, key: U64)
    requires Ordered(s) && s != []
    ensures var below, above := Signed64(WrapSub64(key, s[0].rx)) < 0, Newer(key, s[|s| - 1].rx);
            if below then Answer(s, key) == Miss(0)
            else if above then Answer(s, key) == Miss(|s|)
            else Bracket(s, key, 0, |s| - 1)
  {
    OrderedByDistance(s);
    ScanFindsKey(s, key);
    if Signed64(WrapSub64(key, s[0].rx)) < 0 {
      ScanIs(s, key, 0);
    } else {
      NewerByDistance(s, key, |s| - 1);
      if Newer(key, s[|s| - 1].rx) { ScanIs(s, key, |s|); }
    }
  }

  /** Meeting the key settles the search, at an end of the list or once the trap is ruled out. */
  lemma KeyFound(s: seq<Stamp>, key: U64, k: nat)
    requires Ordered(s) && k < |s| && s[k].rx == key
    requires k == 0 || k == |s| - 1 || !EraTrap(s, key)
    ensures Answer(s, key) == Hit(k)
  {
    ScanFindsKey(s, key);
  }

  /** Probing strictly inside a bracket narrows it. */
  lemma NarrowBracket(s: seq<Stamp>, key: U64, lo: nat, hi: nat, x: nat)
    requires Ordered(s) && Bracket(s, key, lo, hi) && lo < x < hi
    ensures if Signed64(WrapSub64(s[x].rx, key)) <= 0 then Bracket(s, key, x, hi) else Bracket(s, key, lo, x)
  {
    OrderedByDistance(s);
  }

  /** A bracket of two neighbours that are not the key is the insertion point. */
  lemma GapMisses(s: seq<Stamp>, key: U64, lo: nat)
    requires Ordered(s) && Bracket(s, key, lo, lo + 1) && s[lo].rx != key && s[lo + 1].rx != key
    requires |s| < 5 || !EraTrap(s, key)
    ensures Answer(s, key) == Miss(lo + 1)
  {
    NewerByDistance(s, key, lo);
    NewerByDistance(s, key, lo + 1);
    ScanIs(s, key, lo + 1);
    ScanFindsKey(s, key);
  }

  /**
    Inside a wide bracket the ends are numerically out of order exactly in the trap, which shows
    at the first probe; otherwise the interpolation arithmetic cannot underflow.
   */
  lemma WideBracket(s: seq<Stamp>, key: U64, lo: nat, hi: nat)
    requires Ordered(s) && Bracket(s, key, lo, hi) && s[lo].rx != key && s[hi].rx != key
    requires (lo == 0 && hi == |s| - 1) || !EraTrap(s, key)
    ensures hi - lo > 3 && s[hi].rx < s[lo].rx ==> Answer(s, key) == Overflow
    ensures hi - lo > 3 && s[hi].rx >= s[lo].rx ==> s[lo].rx < key < s[hi].rx && s[hi].rx - s[lo].rx >= hi - lo
    ensures hi - lo <= 3 || s[hi].rx >= s[lo].rx ==> !EraTrap(s, key)
  {
    OrderedByDistance(s);
    NewerByDistance(s, key, lo);
    NewerByDistance(s, key, hi);
    assert Ahead(s[hi].rx, s[0].rx) <= Ahead(s[|s| - 1].rx, s[0].rx);
    if !Straddles(s) {
      SameEraAscends(s, lo, hi);
      SameEraAscends(s, hi, |s| - 1);
    }
  }

  /** A key newer than all the others is neither stored nor inside. */
  lemma NewestIsNew(s: seq<Stamp>, key: U64)
    requires Ordered(s) && (s != [] ==> Ahead(s[|s| - 1].rx, s[0].rx) < Ahead(key, s[0].rx) < TWO63)
    ensures Scan(s, key) == |s| && Located(s, key) == Miss(|s|) && !HasKey(s, key) && !EraTrap(s, key)
  {
    if s != [] { NewerByDistance(s, key, |s| - 1); }
    ScanIs(s, key, |s|);
    ScanFindsKey(s, key);
  }

  /** It goes to the end, and nothing is lost. */
  lemma SavedAppends(s: seq<Stamp>, cap: nat, e: Stamp)
    requires |s| < cap && Scan(s, e.rx) == |s|
    ensures Saved(s, cap, e) == s + [e]
  {
    assert Trimmed(s, e.rx) == s;
  }

  predicate MoveOk(keys: seq<U64>, i: nat)
    requires i < |keys|
  {
    keys[i] != 0 && (i > 0 ==> Ahead(keys[i - 1], keys[0]) < Ahead(keys[i], keys[0]) < TWO63)
  }

  /** Each key is further ahead of the first than the one before it. */
  predicate MovesAway(keys: seq<U64>) { forall i: nat {:trigger MoveOk(keys, i)} | i < |keys| :: MoveOk(keys, i) }

  /** The stamps have these keys. */
  predicate HasKeys(s: seq<Stamp>, keys: seq<U64>) { |s| == |keys| && forall i | 0 <= i < |s| :: s[i].rx == keys[i] }

  lemma HasOneMore(s: seq<Stamp>, keys: seq<U64>, i: nat, after: seq<Stamp>)
    requires i < |keys| && HasKeys(s, keys[..i]) && |after| == i + 1 && after[..i] == s && after[i].rx == keys[i]
    ensures HasKeys(after, keys[..i + 1])
  {
    forall j | 0 <= j <= i ensures after[j].rx == keys[j] { if j < i { assert after[j] == after[..i][j]; } }
  }

  /** Five keys around the end of an NTP era, two before it and three after. */
  const ACROSS_ERA: seq<U64> := [TWO64 - 2, TWO64 - 1, 1, 2, 3]

  /** The promise that adjacent eras work fails: a stored key that the scan finds traps the search. */
  lemma EraTrapHappens(s: seq<Stamp>)
    requires HasKeys(s, ACROSS_ERA)
    ensures Ordered(s) && Located(s, 1) == Hit(2) && EraTrap(s, 1) && Answer(s, 1) == Overflow
  {
    assert Ordered(s);
    ScanIs(s, 1, 2);
  }
}
