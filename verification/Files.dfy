/** Files that change underneath a cache built from them. */
module Files {
  import opened Octets

  /** How often each file has changed. A version of a file never comes back. */
  type Versions = seq<nat>

  /** Componentwise: `later` is not before `earlier` for any file. */
  predicate Before(earlier: Versions, later: Versions) {
    |earlier| == |later| && forall i :: 0 <= i < |earlier| ==> earlier[i] <= later[i]
  }

  /**
    The files of one configuration: the stamp each version of each file carries (its modification
    time, or that there is none), and what building from the files yields, if it succeeds.
   */
  datatype Source<!Stamp, !Built> = Source(
    stamp: (nat, nat) -> Stamp,
    load: Versions -> Option<Built>)

  function Stamps<Stamp, Built>(source: Source<Stamp, Built>, v: Versions): seq<Stamp> {
    seq(|v|, i requires 0 <= i < |v| => source.stamp(i, v[i]))
  }

  /**
    The stamps tell `current` from what the files were before: no earlier state of them carried the
    same stamps. Earlier states may share stamps among themselves, as those of a file that was
    missing twice do.
   */
  ghost predicate Tells<Stamp, Built>(source: Source<Stamp, Built>, current: Versions) {
    forall v :: Before(v, current) && SameStamps(source, v, current) ==> v == current
  }

  /** Every file carries the same stamp in both states. */
  ghost predicate SameStamps<Stamp, Built>(source: Source<Stamp, Built>, v: Versions, w: Versions) {
    |v| == |w| && forall i :: 0 <= i < |v| ==> source.stamp(i, v[i]) == source.stamp(i, w[i])
  }

  /** The stamps taken together are the same exactly when those of every file are. */
  lemma StampsAgree<Stamp, Built>(source: Source<Stamp, Built>, v: Versions, w: Versions)
    ensures Stamps(source, v) == Stamps(source, w) <==> SameStamps(source, v, w)
  {
    if Stamps(source, v) == Stamps(source, w) {
      assert |Stamps(source, v)| == |Stamps(source, w)|;
      forall i | 0 <= i < |v| ensures source.stamp(i, v[i]) == source.stamp(i, w[i]) {
        assert Stamps(source, v)[i] == Stamps(source, w)[i];
      }
    }
  }

  lemma Between(a: Versions, b: Versions, c: Versions)
    requires Before(a, b) && Before(b, c)
    ensures Before(a, c)
    ensures a == c ==> b == a
  {
  }
}
