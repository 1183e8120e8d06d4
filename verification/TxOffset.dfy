/**
  Storing a TX time as a 32-bit nanosecond offset from its RX time, and getting it back.
  The f64 scaling that turns a 64-bit NTP key into a timespec is a parameter here: any
  function will do, as long as both directions use the same one.
 */
module TxOffset {
  import opened Common
  import opened TimestampOrder

  const NSEC_PER_SEC: int := 1_000_000_000

  datatype Timespec = Timespec(sec: int, nsec: int)

  /** Total nanoseconds. */
  function Nanos(t: Timespec): int { t.sec * NSEC_PER_SEC + t.nsec }

  predicate IsNormal(t: Timespec) { 0 <= t.nsec < NSEC_PER_SEC }

  /** Rust's `/` on signed integers truncates toward zero. */
  function TruncDiv(a: int, b: int): int
    requires b > 0
  {
    if a >= 0 then a / b else -((-a) / b)
  }

  /** `UTI_NormaliseTimespec`: the same instant with the nanoseconds in range. */
  function Normalise(t: Timespec): (r: Timespec)
    ensures IsNormal(r)
    ensures Nanos(r) == Nanos(t)
  {
    if t.nsec >= NSEC_PER_SEC || t.nsec < 0 then
      var q := TruncDiv(t.nsec, NSEC_PER_SEC);
      var rem := t.nsec - q * NSEC_PER_SEC;
      if rem < 0 then Timespec(t.sec + q - 1, rem + NSEC_PER_SEC) else Timespec(t.sec + q, rem)
    else t
  }

  /** Two normalised times at the same instant are the same value. */
  lemma NormalIsUnique(a: Timespec, b: Timespec)
    requires IsNormal(a) && IsNormal(b) && Nanos(a) == Nanos(b)
    ensures a == b
  {
  }

  /** `UTI_DiffTimespecs`. */
  function Diff(a: Timespec, b: Timespec): Timespec {
    Normalise(Timespec(a.sec - b.sec, a.nsec - b.nsec))
  }

  /** The accepted window for a TX time: from two seconds before the RX time to just under two after. */
  predicate InWindow(tx: Timespec, rx: Timespec) {
    -2 * NSEC_PER_SEC <= Nanos(tx) - Nanos(rx) < 2 * NSEC_PER_SEC
  }

  /** `set_ntp_tx`. */
  function WithTx(stamp: Stamp, rx: Timespec, tx: Option<Timespec>, source: TimestampSource): Stamp {
    if tx.None? then stamp.(validTx := false) else
    var d := Diff(tx.value, rx);
    if d.sec < -2 || d.sec > 1 then stamp.(validTx := false)
    else stamp.(offset := d.nsec + d.sec * NSEC_PER_SEC, validTx := true, source := source)
  }

  /** `get_ntp_tx`; the time is all zero when no valid TX is stored. */
  function StoredTx(stamp: Stamp, rx: Timespec): Timespec {
    if !stamp.validTx then Timespec(0, 0)
    else if stamp.offset >= NSEC_PER_SEC then
      Normalise(Timespec(rx.sec + 1, rx.nsec + (stamp.offset - NSEC_PER_SEC)))
    else Normalise(Timespec(rx.sec, rx.nsec + stamp.offset))
  }

  /**
    A TX time survives storage, up to normalisation, exactly when it lies in the window;
    otherwise the stamp reports no TX.  Nothing but the TX fields is touched.
   */
  lemma TxRoundTrip(stamp: Stamp, rx: Timespec, tx: Timespec, source: TimestampSource)
    ensures var w := WithTx(stamp, rx, Some(tx), source);
            && (w.validTx <==> InWindow(tx, rx))
            && (InWindow(tx, rx) ==> StoredTx(w, rx) == Normalise(tx) && w.source == source)
            && (!InWindow(tx, rx) ==> StoredTx(w, rx) == Timespec(0, 0) && w == stamp.(validTx := false))
            && w.rx == stamp.rx && w.disabled == stamp.disabled && w.epoch == stamp.epoch
  {
    var w := WithTx(stamp, rx, Some(tx), source);
    var d := Diff(tx, rx);
    assert Nanos(d) == Nanos(tx) - Nanos(rx);
    if w.validTx {
      NormalIsUnique(StoredTx(w, rx), Normalise(tx));
    }
  }

  /** The map after `CLG_UpdateNtpTxTimestamp`. */
  function Updated(s: seq<Stamp>, key: U64, rx: Timespec, tx: Option<Timespec>, source: TimestampSource): seq<Stamp> {
    Amended(s, key, (v: Stamp) => WithTx(v, rx, tx, source))
  }

  /** What `CLG_GetNtpTxTimestamp` answers for `key`. */
  function Fetched(s: seq<Stamp>, key: U64, rx: Timespec): Option<(Timespec, TimestampSource)> {
    match Located(s, key)
    case Hit(i) => if s[i].disabled then None else Some((StoredTx(s[i], rx), s[i].source))
    case _ => None
  }

  /** The stamp a save writes over the stale contents of its cell. */
  function Stored(stale: Stamp, key: U64, epoch: U16, rx: Timespec, tx: Option<Timespec>, source: TimestampSource): Stamp {
    WithTx(stale.(rx := key, disabled := false, validTx := false, epoch := epoch), rx, tx, source)
  }

  /**
    Saving a fresh key makes it retrievable: a search for it ends on the new stamp, which gives
    back the normalised TX time exactly when that time lies in the window.
   */
  lemma SavedIsRetrievable(s: seq<Stamp>, cap: nat, stale: Stamp, key: U64, epoch: U16, rx: Timespec, tx: Timespec,
                           source: TimestampSource)
    requires Ordered(s) && |s| <= cap && 0 < cap && key != 0 && !HasKey(s, key)
    ensures var e := Stored(stale, key, epoch, rx, Some(tx), source);
            var r := Saved(s, cap, e);
            && HasKey(r, key) && Scan(r, key) < |r| && r[Scan(r, key)] == e
            && Fetched(r, key, rx) == Some((if InWindow(tx, rx) then Normalise(tx) else Timespec(0, 0),
                                            if InWindow(tx, rx) then source else stale.source))
  {
    var e := Stored(stale, key, epoch, rx, Some(tx), source);
    SaveKeepsOrder(s, cap, e);
    ScanFindsKey(Saved(s, cap, e), key);
    TxRoundTrip(stale.(rx := key, disabled := false, validTx := false, epoch := epoch), rx, tx, source);
  }

  /** A lookup answers exactly for the live keys. */
  lemma FetchedIsLive(s: seq<Stamp>, key: U64, rx: Timespec)
    requires Ordered(s)
    ensures Fetched(s, key, rx).Some? <==> key in LiveKeys(s)
  {
    ScanFindsKey(s, key);
    if key in LiveKeys(s) {
      var i :| 0 <= i < |s| && !s[i].disabled && s[i].rx == key;
      assert i == Scan(s, key);
    }
  }

  /** A disabled key is answered no more, and every other key as before. */
  lemma DisabledIsGone(s: seq<Stamp>, key: U64, other: U64, rx: Timespec)
    requires Ordered(s)
    ensures Fetched(Disabled(s, key), other, rx) == if other == key then None else Fetched(s, other, rx)
  {
    AmendedAt(s, key, (v: Stamp) => v.(disabled := true), other);
  }

  /** An updated key that is still live is answered with the new time, and every other key as before. */
  lemma UpdatedIsFetched(s: seq<Stamp>, key: U64, at: Timespec, tx: Timespec, source: TimestampSource, other: U64, rx: Timespec)
    requires Ordered(s)
    ensures var r := Updated(s, key, at, Some(tx), source);
            && (other != key ==> Fetched(r, other, rx) == Fetched(s, other, rx))
            && (Fetched(r, key, at).Some? <==> Fetched(s, key, at).Some?)
            && (Fetched(s, key, at).Some? && InWindow(tx, at) ==> Fetched(r, key, at) == Some((Normalise(tx), source)))
            && (Fetched(s, key, at).Some? && !InWindow(tx, at) ==> Fetched(r, key, at).value.0 == Timespec(0, 0))
  {
    var withTx := (v: Stamp) => WithTx(v, at, Some(tx), source);
    AmendedAt(s, key, withTx, other);
    AmendedAt(s, key, withTx, key);
    if Located(s, key).Hit? { TxRoundTrip(s[Located(s, key).index], at, tx, source); }
  }

  /** A save changes the answer for no other key, except that it may be forgotten. */
  lemma SavedKeepsOthers(s: seq<Stamp>, cap: nat, e: Stamp, other: U64, rx: Timespec)
    requires Ordered(s) && |s| <= cap && 0 < cap && e.rx != 0 && !HasKey(s, e.rx) && other != e.rx
    ensures var r := Saved(s, cap, e); HasKey(r, other) ==> HasKey(s, other) && Fetched(r, other, rx) == Fetched(s, other, rx)
  {
    var r := Saved(s, cap, e);
    SaveKeepsOrder(s, cap, e);
    ScanFindsKey(s, other);
    ScanFindsKey(r, other);
    if HasKey(r, other) {
      var i := Scan(r, other);
      SaveAddsOne(s, cap, e, r[i]);
      var j :| 0 <= j < |s| && s[j] == r[i];
      assert j == Scan(s, other);
    }
  }
}
