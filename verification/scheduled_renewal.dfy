/** `ScheduledRenewal`: one scheduled certificate renewal, the part of it
    that is persisted, and the choice of certificate-store lookup that finds
    its current certificate. */
module ScheduledRenewal {
  import opened Wrappers
  import opened DotNetStrings
  import opened Targets
  import opened History

  /** Every property of the class. `isNew`, `test`, `updated` and `history`
      are never serialised; `CentralSsl` is computed (see below). `san` is
      obsolete and `warmup` is marked for removal; both are still read from
      and written to disk. */
  datatype Renewal = Renewal(
    isNew: bool,
    test: bool,
    updated: bool,
    date: int,
    binding: Option<Target>,
    centralSslStore: Option<string>,
    san: Option<bool>,
    keepExisting: bool,
    script: Option<string>,
    scriptParameters: Option<string>,
    warmup: bool,
    history: Option<seq<RenewResult>>)

  /** The serialised properties of a renewal. */
  datatype PersistedRenewal = PersistedRenewal(
    date: int,
    binding: Option<Target>,
    centralSslStore: Option<string>,
    san: Option<bool>,
    keepExisting: bool,
    script: Option<string>,
    scriptParameters: Option<string>,
    warmup: bool)

  /** A renewal rebuilt from its persisted view and the ignored properties. */
  function Restore(p: PersistedRenewal, isNew: bool, test: bool, updated: bool,
                   history: Option<seq<RenewResult>>): Renewal
  {
    Renewal(isNew, test, updated, p.date, p.binding, p.centralSslStore, p.san,
            p.keepExisting, p.script, p.scriptParameters, p.warmup, history)
  }

  /** The view of a renewal that is written to disk. Together with the
      ignored properties it determines the renewal, so no other property is
      dropped. */
  function Persisted(r: Renewal): (p: PersistedRenewal)
    ensures Restore(p, r.isNew, r.test, r.updated, r.history) == r
  {
    PersistedRenewal(r.date, r.binding, r.centralSslStore, r.san, r.keepExisting,
                     r.script, r.scriptParameters, r.warmup)
  }

  /** Two renewals have the same persisted view exactly when they differ at
      most in the ignored properties `isNew`, `test`, `updated`, `history`. */
  lemma PersistedViewIgnoresTransient(r1: Renewal, r2: Renewal)
    ensures Persisted(r1) == Persisted(r2) <==>
              r1.(isNew := r2.isNew, test := r2.test, updated := r2.updated, history := r2.history) == r2
  {
  }

  /** The `CentralSsl` shortcut: a central store is configured when its
      location holds at least one non-white-space character. */
  function CentralSsl(r: Renewal): (b: bool)
    ensures b <==>
              r.centralSslStore.Some? &&
              exists i :: 0 <= i < |r.centralSslStore.value| && !IsWhiteSpace(r.centralSslStore.value[i])
  {
    !IsNullOrWhiteSpace(r.centralSslStore)
  }

  /** `CentralSsl` is derived from a persisted property, so it survives a
      save even though it is not itself serialised. */
  lemma CentralSslFollowsPersistedView(r1: Renewal, r2: Renewal)
    requires Persisted(r1) == Persisted(r2)
    ensures CentralSsl(r1) == CentralSsl(r2)
  {
  }

  /** The one lookup issued against the certificate store. */
  datatype StoreQuery =
    | ByThumbprint(thumbprint: string)
    | ByFriendlyName(friendlyName: Option<string>)

  /** Reading `Binding.Host` on a renewal whose binding is null throws. */
  datatype CertificateError = NullBinding

  /** The lookup used by the friendly-name fallback. */
  function FriendlyNameQuery(binding: Option<Target>): (q: Result<StoreQuery, CertificateError>)
    ensures q.Failure? <==> binding.None?
    ensures q.Success? ==> q.value == ByFriendlyName(binding.value.host)
  {
    match binding
    case None => Failure(NullBinding)
    case Some(t) => Success(ByFriendlyName(t.host))
  }

  /** `Certificate(store)`: the store lookup that finds the renewal's current
      certificate, by the thumbprint of the latest successful attempt when it
      has one, otherwise by the host name. */
  function Certificate(r: Renewal): (q: Result<StoreQuery, CertificateError>)
    ensures q.Success? && q.value.ByThumbprint? ==>
              && |q.value.thumbprint| > 0
              && r.history.Some?
              && exists i :: 0 <= i < |r.history.value| && r.history.value[i].success
                             && r.history.value[i].thumbprint == Some(q.value.thumbprint)
    ensures q.Success? && q.value.ByFriendlyName? ==>
              r.binding.Some? && q.value.friendlyName == r.binding.value.host
    ensures q.Failure? ==> r.binding.None?
  {
    var thumbprint := LatestThumbprint(r.history);
    if !IsNullOrEmpty(thumbprint) then
      var h := r.history.value;
      assert h[LatestIndex(h).value].thumbprint == thumbprint;
      Success(ByThumbprint(thumbprint.value))
    else
      FriendlyNameQuery(r.binding)
  }

  /** The latest successful attempt has a thumbprint: the store is asked for
      exactly that thumbprint. */
  lemma CertificateByLatestThumbprint(r: Renewal, k: int)
    requires r.history.Some? && IsLatestSuccess(r.history.value, k)
    requires !IsNullOrEmpty(r.history.value[k].thumbprint)
    ensures Certificate(r) == Success(ByThumbprint(r.history.value[k].thumbprint.value))
  {
    LatestSuccessIsUnique(r.history.value, k, LatestIndex(r.history.value).value);
  }

  /** No history, or no successful attempt in it: the store is asked by
      host name. */
  lemma CertificateWithoutSuccess(r: Renewal)
    requires r.history.None? || forall i :: 0 <= i < |r.history.value| ==> !r.history.value[i].success
    ensures Certificate(r) == FriendlyNameQuery(r.binding)
  {
  }

  /** The latest successful attempt has no thumbprint: the store is asked by
      host name, even if an older success recorded one. */
  lemma CertificateEmptyLatestThumbprint(r: Renewal, k: int)
    requires r.history.Some? && IsLatestSuccess(r.history.value, k)
    requires IsNullOrEmpty(r.history.value[k].thumbprint)
    ensures Certificate(r) == FriendlyNameQuery(r.binding)
  {
    LatestSuccessIsUnique(r.history.value, k, LatestIndex(r.history.value).value);
  }

  /** A thumbprint lookup is issued exactly when the latest successful
      attempt has a thumbprint; every other renewal gets the host-name
      lookup (or fails on a null binding), never both. */
  lemma CertificateQueryKind(r: Renewal)
    ensures (Certificate(r).Success? && Certificate(r).value.ByThumbprint?) <==>
              && r.history.Some?
              && LatestIndex(r.history.value).Some?
              && !IsNullOrEmpty(r.history.value[LatestIndex(r.history.value).value].thumbprint)
    ensures !(Certificate(r).Success? && Certificate(r).value.ByThumbprint?) ==>
              Certificate(r) == FriendlyNameQuery(r.binding)
  {
  }

  /** Failed attempts never influence the lookup, however recent they are. */
  lemma CertificateIgnoresFailures(r: Renewal, h: seq<RenewResult>)
    requires r.history.Some? && Successes(r.history.value) == Successes(h)
    ensures Certificate(r.(history := Some(h))) == Certificate(r)
  {
    LatestThumbprintIgnoresFailures(r.history.value, h);
  }

  /** When no two successful attempts share a date, reordering the history
      does not change the lookup. */
  lemma CertificateIgnoresOrder(r: Renewal, h: seq<RenewResult>)
    requires r.history.Some? && multiset(r.history.value) == multiset(h)
    requires DistinctSuccessDates(r.history.value)
    ensures Certificate(r.(history := Some(h))) == Certificate(r)
  {
    LatestThumbprintPermutation(r.history.value, h);
  }

  /** Two attempts, an older success with thumbprint "A" and a newer success
      with "B", then a newest failure: the store is asked for "B". */
  lemma CertificateScenarioNewestSuccess(host: Option<string>)
    ensures
      var h := [RenewResult(10, true, None, Some("A")),
                RenewResult(20, true, None, Some("B")),
                RenewResult(30, false, Some("timeout"), None)];
      var t := Target(host, None, None, None, None, None, None);
      var r := Renewal(false, false, false, 0, Some(t), None, None, false, None, None, false, Some(h));
      Certificate(r) == Success(ByThumbprint("B"))
  {
    var h := [RenewResult(10, true, None, Some("A")),
              RenewResult(20, true, None, Some("B")),
              RenewResult(30, false, Some("timeout"), None)];
    var t := Target(host, None, None, None, None, None, None);
    var r := Renewal(false, false, false, 0, Some(t), None, None, false, None, None, false, Some(h));
    assert IsLatestSuccess(h, 1);
    CertificateByLatestThumbprint(r, 1);
  }

  /** Two successes on the same date: the one listed first is used. */
  lemma CertificateScenarioTie(host: Option<string>)
    ensures
      var h := [RenewResult(10, true, None, Some("A")),
                RenewResult(10, true, None, Some("B"))];
      var t := Target(host, None, None, None, None, None, None);
      var r := Renewal(false, false, false, 0, Some(t), None, None, false, None, None, false, Some(h));
      Certificate(r) == Success(ByThumbprint("A"))
  {
    var h := [RenewResult(10, true, None, Some("A")),
              RenewResult(10, true, None, Some("B"))];
    var t := Target(host, None, None, None, None, None, None);
    var r := Renewal(false, false, false, 0, Some(t), None, None, false, None, None, false, Some(h));
    assert IsLatestSuccess(h, 0);
    CertificateByLatestThumbprint(r, 0);
  }
}
