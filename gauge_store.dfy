/** The gauge store: one family per gauge object, each family a map from a
    label tuple to the value last set for it.  All gauges of the collector
    are set through `labels(...).set(1)`, so the store only ever grows and
    every value in it is the presence indicator 1. */
module GaugeStore {

  /** One time series within a family, identified by its label values in
      declaration order. */
  type Labels = seq<string>

  /** A gauge family: label tuple -> value. */
  type Family = map<Labels, int>

  /** The whole store: the family of the i-th gauge object created by the
      collector's constructor, at index i. */
  type Store = seq<Family>

  /** The presence value written by every probe. */
  const Present: int := 1

  /** Every series of the family carries the presence value. */
  ghost predicate PresenceOnly(f: Family)
  {
    forall t :: t in f ==> f[t] == Present
  }

  /** Every family of the store carries only presence values. */
  ghost predicate StorePresenceOnly(s: Store)
  {
    forall i :: 0 <= i < |s| ==> PresenceOnly(s[i])
  }

  /** The family after `labels(t).set(1)` for each tuple `t` of `ts`, in
      order.  Generic in the key type, as the store does not look into
      label tuples. */
  function MarkPresent<K>(f: map<K, int>, ts: seq<K>): map<K, int>
    decreases |ts|
  {
    if ts == [] then f else MarkPresent(f[ts[0] := Present], ts[1..])
  }

  /** What marking does: the marked tuples are added (or overwritten) with
      the value 1, every other series keeps its value, nothing is removed. */
  lemma {:induction false} MarkPresentMeaning<K>(f: map<K, int>, ts: seq<K>)
    ensures forall t :: t in MarkPresent(f, ts) <==> t in f || t in ts
    ensures forall t :: t in ts ==> MarkPresent(f, ts)[t] == Present
    ensures forall t :: t in f && t !in ts ==> MarkPresent(f, ts)[t] == f[t]
    decreases |ts|
  {
    if ts != [] {
      MarkPresentMeaning(f[ts[0] := Present], ts[1..]);
      assert ts == [ts[0]] + ts[1..];
    }
  }

  /** Marking the same tuples again changes nothing. */
  lemma MarkPresentIdempotent(f: Family, ts: seq<Labels>)
    ensures MarkPresent(MarkPresent(f, ts), ts) == MarkPresent(f, ts)
  {
    var once := MarkPresent(f, ts);
    MarkPresentMeaning(f, ts);
    MarkPresentMeaning(once, ts);
    var twice := MarkPresent(once, ts);
    forall t
      ensures t in twice <==> t in once
      ensures t in twice ==> twice[t] == once[t]
    {
    }
  }

  /** Marking keeps a presence-only family presence-only. */
  lemma MarkPresentKeepsPresence(f: Family, ts: seq<Labels>)
    requires PresenceOnly(f)
    ensures PresenceOnly(MarkPresent(f, ts))
  {
    MarkPresentMeaning(f, ts);
  }
}
