/** The iOS client's entitlement manager: a daily quota of free uses kept in
    the device's key-value store, a persisted developer-unlimited flag, and a
    subscription flag recomputed from the store's entitlement list. StoreKit
    answers (entitlements, purchase results, update events, product fetches)
    are inputs; "today" is the local day number of the clock reading. */
module Subscription {
  import opened Wrappers

  const MaxFreeUses: int := 3

  /** The product identifiers, in declaration order. */
  const MonthlyProductId: string := "com.urban.copywriter.monthly"
  const YearlyProductId: string := "com.urban.copywriter.yearly"
  const ProductIds: seq<string> := [MonthlyProductId, YearlyProductId]

  const PendingMessage: string := "購買待處理中，請稍後再試"
  const PurchaseFailedPrefix: string := "購買失敗："
  const LoadFailedPrefix: string := "載入失敗："
  const NoProductsMessage: string := "App Store 尚未回傳產品。\n可能原因：合約尚未生效（簽完需等數小時）"

  // ---------------------------------------------------------------------
  // Store data
  // ---------------------------------------------------------------------

  datatype ProductType = AutoRenewable | NonRenewable | Consumable | NonConsumable

  datatype Transaction = Transaction(id: int, productId: string, productType: ProductType)

  /** A signed store record: verified, or failing signature checks. */
  datatype VerificationResult = Verified(transaction: Transaction) | Unverified

  datatype StoreError = FailedVerification

  datatype PurchaseResult = Success(verification: VerificationResult) | UserCancelled | Pending | Unknown

  /** `product.purchase()`: returns a result, or throws an error whose
      localized description is given. */
  datatype PurchaseOutcome = Completed(result: PurchaseResult) | Threw(description: string)

  /** A product with its price in the smallest currency unit. */
  datatype Product = Product(id: string, price: int)

  /** `Product.products(for:)`: the products found, or an error's localized
      description. */
  datatype FetchOutcome = Fetched(products: seq<Product>) | FetchFailed(description: string)

  /** The device key-value store, as far as the manager uses it:
      "urban_free_uses_remaining" (read as 0 when absent), the local day of
      "urban_free_uses_date" (absent: the distant past), and
      "urban_dev_unlimited" (read as false when absent). */
  datatype Defaults = Defaults(freeUses: int, freeUsesDay: Option<int>, devUnlimited: bool)

  /** `checkVerified`: the transaction of a verified record; an unverified
      one throws `failedVerification`. */
  function CheckVerified(result: VerificationResult): (r: Result<Transaction, StoreError>)
    ensures r.Ok? <==> result.Verified?
    ensures r.Ok? ==> r.value == result.transaction
    ensures r.Err? ==> r.error == FailedVerification
  {
    match result
    case Unverified => Err(FailedVerification)
    case Verified(t) => Ok(t)
  }

  /** An entitlement that makes the user a subscriber: verified and
      auto-renewable, whatever its product identifier. */
  predicate GrantsSubscription(entitlement: VerificationResult) {
    CheckVerified(entitlement).Ok? && CheckVerified(entitlement).value.productType == AutoRenewable
  }

  predicate HasActiveSubscription(entitlements: seq<VerificationResult>) {
    exists i :: 0 <= i < |entitlements| && GrantsSubscription(entitlements[i])
  }

  /** Entitlements that are not verified never make a subscriber. */
  lemma UnverifiedEntitlementsIgnored(entitlements: seq<VerificationResult>, unverified: seq<VerificationResult>)
    requires forall i :: 0 <= i < |unverified| ==> unverified[i].Unverified?
    ensures HasActiveSubscription(entitlements + unverified) == HasActiveSubscription(entitlements)
    ensures !HasActiveSubscription(unverified)
  {
    var all := entitlements + unverified;
    if HasActiveSubscription(all) {
      var i :| 0 <= i < |all| && GrantsSubscription(all[i]);
      assert i < |entitlements| && entitlements[i] == all[i];
    }
    if HasActiveSubscription(entitlements) {
      var i :| 0 <= i < |entitlements| && GrantsSubscription(entitlements[i]);
      assert all[i] == entitlements[i];
    }
  }

  // ---------------------------------------------------------------------
  // The free quota as a value
  // ---------------------------------------------------------------------

  /** The part of the manager's state the quota operations read and write. */
  datatype Quota = Quota(isSubscribed: bool, freeUsesRemaining: int, defaults: Defaults)

  /** The result of a gate (`useFreeUse`, `canUse`) and the state after it. */
  datatype Gate = Gate(granted: bool, next: Quota)

  /** Subscribers and developers are never counted against the quota. */
  predicate Privileged(q: Quota) {
    q.isSubscribed || q.defaults.devUnlimited
  }

  /** The start of today is after the start of the saved day; a missing date
      counts as the distant past. */
  predicate DayAdvanced(savedDay: Option<int>, today: int) {
    savedDay.None? || savedDay.value < today
  }

  /** `saveFreeUses`: writes the count and the current date. */
  function Saved(d: Defaults, count: int, today: int): (r: Defaults)
    ensures r.freeUses == count && r.freeUsesDay == Some(today) && r.devUnlimited == d.devUnlimited
  {
    d.(freeUses := count, freeUsesDay := Some(today))
  }

  /** `loadFreeUses`: on a later day than the saved one the count becomes
      3 and is saved; otherwise (including a clock set back) the stored
      count is read back as it is. */
  function Loaded(q: Quota, today: int): (r: Quota)
    ensures r.isSubscribed == q.isSubscribed
    ensures DayAdvanced(q.defaults.freeUsesDay, today) ==>
      r.freeUsesRemaining == MaxFreeUses && r.defaults == Saved(q.defaults, MaxFreeUses, today)
    ensures !DayAdvanced(q.defaults.freeUsesDay, today) ==>
      r.freeUsesRemaining == q.defaults.freeUses && r.defaults == q.defaults
  {
    if DayAdvanced(q.defaults.freeUsesDay, today) then
      q.(freeUsesRemaining := MaxFreeUses, defaults := Saved(q.defaults, MaxFreeUses, today))
    else
      q.(freeUsesRemaining := q.defaults.freeUses)
  }

  /** `useFreeUse`. */
  function UseFreeUseStep(q: Quota, today: int): Gate {
    if Privileged(q) then Gate(true, q)
    else
      var loaded := Loaded(q, today);
      if loaded.freeUsesRemaining > 0 then
        var n := loaded.freeUsesRemaining - 1;
        Gate(true, loaded.(freeUsesRemaining := n, defaults := Saved(loaded.defaults, n, today)))
      else
        Gate(false, loaded)
  }

  /** `canUse`. */
  function CanUseStep(q: Quota, today: int): Gate {
    if Privileged(q) then Gate(true, q)
    else
      var loaded := Loaded(q, today);
      Gate(loaded.freeUsesRemaining > 0, loaded)
  }

  /** A subscriber or developer is granted without any load, decrement or
      save: the state is returned untouched. */
  lemma PrivilegedNeverCharged(q: Quota, today: int)
    requires Privileged(q)
    ensures UseFreeUseStep(q, today) == Gate(true, q)
    ensures CanUseStep(q, today) == Gate(true, q)
  {
  }

  /** On the free path the loaded count decides: above zero it drops by
      exactly one, is saved, and the use is granted; at zero or below the
      use is denied and nothing beyond the load is written. */
  lemma FreeUseDecrementsByOne(q: Quota, today: int)
    requires !Privileged(q)
    ensures var loaded := Loaded(q, today);
      var g := UseFreeUseStep(q, today);
      (loaded.freeUsesRemaining > 0 ==>
        g.granted && g.next.freeUsesRemaining == loaded.freeUsesRemaining - 1
        && g.next.defaults == Saved(loaded.defaults, loaded.freeUsesRemaining - 1, today))
      && (loaded.freeUsesRemaining <= 0 ==> !g.granted && g.next == loaded)
  {
  }

  /** `canUse` answers what `useFreeUse` would answer in the same state, and
      never decrements: its only write is the day-rollover reset. */
  lemma CanUseAgreesWithUseFreeUse(q: Quota, today: int)
    ensures CanUseStep(q, today).granted == UseFreeUseStep(q, today).granted
    ensures CanUseStep(q, today).next.freeUsesRemaining >= UseFreeUseStep(q, today).next.freeUsesRemaining
    ensures CanUseStep(q, today).next.defaults == q.defaults
      || (DayAdvanced(q.defaults.freeUsesDay, today)
          && CanUseStep(q, today).next.defaults == Saved(q.defaults, MaxFreeUses, today))
  {
  }

  /** Asking twice is asking once. */
  lemma CanUseIdempotent(q: Quota, today: int)
    ensures CanUseStep(CanUseStep(q, today).next, today) == CanUseStep(q, today)
  {
  }

  /** The stored and in-memory counts stay in 0..3 once they are. */
  predicate InRange(q: Quota) {
    0 <= q.freeUsesRemaining <= MaxFreeUses && 0 <= q.defaults.freeUses <= MaxFreeUses
  }

  lemma RangePreserved(q: Quota, today: int)
    requires InRange(q)
    ensures InRange(UseFreeUseStep(q, today).next)
    ensures InRange(CanUseStep(q, today).next)
  {
  }

  /** Within a day that is not later than the saved one, no gate raises the
      stored count or moves the saved day forward. */
  lemma CountNeverRisesWithinDay(q: Quota, today: int)
    requires !DayAdvanced(q.defaults.freeUsesDay, today)
    ensures UseFreeUseStep(q, today).next.defaults.freeUses <= q.defaults.freeUses
    ensures CanUseStep(q, today).next.defaults.freeUses == q.defaults.freeUses
    ensures !DayAdvanced(UseFreeUseStep(q, today).next.defaults.freeUsesDay, today)
  {
  }

  /** The answers of k successive `useFreeUse` calls on one day, and the
      state after them. */
  datatype Run = Run(answers: seq<bool>, last: Quota)

  function UseFreeUseRun(q: Quota, today: int, k: nat): (r: Run)
    ensures |r.answers| == k
    decreases k
  {
    if k == 0 then Run([], q)
    else
      var g := UseFreeUseStep(q, today);
      var rest := UseFreeUseRun(g.next, today, k - 1);
      Run([g.granted] + rest.answers, rest.last)
  }

  /** Countdown within one day: with c uses available after the first load,
      k calls are granted exactly while i < c (so min(c, k) times, all
      first), and the count ends at c - k, or 0 once it ran out. */
  lemma {:induction false} FreeUseCountdown(q: Quota, today: int, k: nat)
    requires !Privileged(q)
    ensures var c := Loaded(q, today).freeUsesRemaining;
      var r := UseFreeUseRun(q, today, k);
      r.answers == seq(k, i => i < c)
      && (k > 0 ==>
            r.last.freeUsesRemaining == (if c <= 0 then c else if c >= k then c - k else 0)
            && r.last.defaults.freeUses == r.last.freeUsesRemaining)
    decreases k
  {
    var c := Loaded(q, today).freeUsesRemaining;
    if k > 0 {
      var g := UseFreeUseStep(q, today);
      var rest := UseFreeUseRun(g.next, today, k - 1);
      assert !Privileged(g.next);
      FreeUseCountdown(g.next, today, k - 1);
      if c > 0 {
        assert Loaded(g.next, today).freeUsesRemaining == c - 1;
      } else {
        assert Loaded(g.next, today).freeUsesRemaining == c;
      }
      assert UseFreeUseRun(q, today, k).answers == [g.granted] + rest.answers;
    }
  }

  /** A subscriber or developer is granted every time and the quota is never
      touched, however many calls are made. */
  lemma {:induction false} PrivilegedRun(q: Quota, today: int, k: nat)
    requires Privileged(q)
    ensures UseFreeUseRun(q, today, k) == Run(seq(k, i => true), q)
    decreases k
  {
    if k > 0 {
      PrivilegedRun(q, today, k - 1);
      assert [true] + seq(k - 1, i => true) == seq(k, i => true);
    }
  }

  /** A first day on a fresh install grants three uses and denies the
      fourth; the next day grants again from a fresh count of three. */
  lemma DailyQuotaScenario(day: int)
    ensures var install := Quota(false, MaxFreeUses, Defaults(0, None, false));
      var first := UseFreeUseRun(install, day, 4);
      var next := UseFreeUseStep(first.last, day + 1);
      first.answers == [true, true, true, false] && first.last.freeUsesRemaining == 0
      && next.granted && next.next.freeUsesRemaining == 2
  {
    var install := Quota(false, MaxFreeUses, Defaults(0, None, false));
    FreeUseCountdown(install, day, 4);
    var first := UseFreeUseRun(install, day, 4);
    assert first.answers == [true, true, true, false];
    assert first.last.defaults.freeUsesDay.Some? by {
      UseFreeUseRunKeepsDay(install, day, 4);
    }
  }

  /** Every call of a run on one day leaves the saved day set to a value no
      later than that day, unless the user is privileged. */
  lemma {:induction false} UseFreeUseRunKeepsDay(q: Quota, today: int, k: nat)
    requires !Privileged(q)
    requires k > 0
    ensures UseFreeUseRun(q, today, k).last.defaults.freeUsesDay.Some?
    ensures UseFreeUseRun(q, today, k).last.defaults.freeUsesDay.value <= today
      || UseFreeUseRun(q, today, k).last.defaults.freeUsesDay == q.defaults.freeUsesDay
    decreases k
  {
    var g := UseFreeUseStep(q, today);
    if k > 1 {
      UseFreeUseRunKeepsDay(g.next, today, k - 1);
    }
  }

  // ---------------------------------------------------------------------
  // The developer flag over any sequence of quota operations
  // ---------------------------------------------------------------------

  /** Every operation of the manager that touches the quota state. */
  datatype QuotaOp = UseFree(day: int) | AskCanUse(day: int) | EnableDev
                   | RefreshStatus(entitlements: seq<VerificationResult>)

  function Apply(q: Quota, op: QuotaOp): Quota {
    match op
    case UseFree(day) => UseFreeUseStep(q, day).next
    case AskCanUse(day) => CanUseStep(q, day).next
    case EnableDev => q.(defaults := q.defaults.(devUnlimited := true))
    case RefreshStatus(es) => q.(isSubscribed := HasActiveSubscription(es))
  }

  function ApplyAll(q: Quota, ops: seq<QuotaOp>): Quota
    decreases |ops|
  {
    if ops == [] then q else ApplyAll(Apply(q, ops[0]), ops[1..])
  }

  /** Once the developer flag is set no operation clears it, so from then on
      every use is granted without touching the count. */
  lemma {:induction false} DevFlagSticky(q: Quota, ops: seq<QuotaOp>, today: int)
    requires q.defaults.devUnlimited
    ensures ApplyAll(q, ops).defaults.devUnlimited
    ensures UseFreeUseStep(ApplyAll(q, ops), today) == Gate(true, ApplyAll(q, ops))
    decreases |ops|
  {
    if ops != [] {
      DevFlagSticky(Apply(q, ops[0]), ops[1..], today);
    }
  }

  // ---------------------------------------------------------------------
  // Store bookkeeping as values
  // ---------------------------------------------------------------------

  predicate SortedByPrice(ps: seq<Product>) {
    forall i, j :: 0 <= i < j < |ps| ==> ps[i].price <= ps[j].price
  }

  function InsertByPrice(p: Product, ps: seq<Product>): (r: seq<Product>)
    requires SortedByPrice(ps)
    ensures SortedByPrice(r)
    ensures multiset(r) == multiset(ps) + multiset{p}
    ensures |r| == |ps| + 1
    ensures r[0] == p || (ps != [] && r[0] == ps[0])
  {
    if ps == [] then [p]
    else if p.price <= ps[0].price then [p] + ps
    else
      var rest := InsertByPrice(p, ps[1..]);
      assert ps == [ps[0]] + ps[1..];
      [ps[0]] + rest
  }

  /** `fetched.sorted { $0.price < $1.price }`: the same products, cheapest
      first. */
  function SortByPrice(ps: seq<Product>): (r: seq<Product>)
    ensures SortedByPrice(r)
    ensures multiset(r) == multiset(ps)
  {
    if ps == [] then []
    else
      assert ps == [ps[0]] + ps[1..];
      InsertByPrice(ps[0], SortByPrice(ps[1..]))
  }

  /** The transactions the update listener finishes: those of the verified
      updates, in arrival order. */
  function FinishedBy(updates: seq<VerificationResult>): seq<Transaction>
    decreases |updates|
  {
    if updates == [] then []
    else
      var last := updates[|updates| - 1];
      FinishedBy(updates[..|updates| - 1]) + (if last.Verified? then [last.transaction] else [])
  }

  /** The subscription flag after the listener handled the updates, where
      `entitlementsAt(i)` is the entitlement list when update i arrives:
      the answer of the refresh after the last verified update, or the
      previous flag when no update was verified. */
  function SubscribedAfter(updates: seq<VerificationResult>, entitlementsAt: nat -> seq<VerificationResult>,
                           was: bool): bool
    decreases |updates|
  {
    if updates == [] then was
    else if updates[|updates| - 1].Verified? then HasActiveSubscription(entitlementsAt(|updates| - 1))
    else SubscribedAfter(updates[..|updates| - 1], entitlementsAt, was)
  }

  /** Splitting the update stream splits the finished transactions. */
  lemma {:induction false} FinishedByAppend(a: seq<VerificationResult>, b: seq<VerificationResult>)
    ensures FinishedBy(a + b) == FinishedBy(a) + FinishedBy(b)
    decreases |b|
  {
    if b != [] {
      var b' := b[..|b| - 1];
      assert (a + b)[..|a + b| - 1] == a + b';
      assert (a + b)[|a + b| - 1] == b[|b| - 1];
      FinishedByAppend(a, b');
    } else {
      assert a + b == a;
    }
  }

  /** A stream of unverified updates finishes nothing and leaves the flag as
      it was. */
  lemma {:induction false} UnverifiedUpdatesChangeNothing(updates: seq<VerificationResult>,
                                                        entitlementsAt: nat -> seq<VerificationResult>, was: bool)
    requires forall i :: 0 <= i < |updates| ==> updates[i].Unverified?
    ensures FinishedBy(updates) == []
    ensures SubscribedAfter(updates, entitlementsAt, was) == was
    decreases |updates|
  {
    if updates != [] {
      UnverifiedUpdatesChangeNothing(updates[..|updates| - 1], entitlementsAt, was);
    }
  }

  /** Every finished transaction comes from a verified update. */
  lemma {:induction false} FinishedOnlyVerified(updates: seq<VerificationResult>)
    ensures forall t :: t in FinishedBy(updates) ==> Verified(t) in updates
    decreases |updates|
  {
    if updates != [] {
      var init := updates[..|updates| - 1];
      FinishedOnlyVerified(init);
      assert forall u :: u in init ==> u in updates;
    }
  }

  // ---------------------------------------------------------------------
  // The manager
  // ---------------------------------------------------------------------

  class SubscriptionManager {
    var isSubscribed: bool
    var freeUsesRemaining: int
    var products: seq<Product>
    var purchaseError: Option<string>
    var isPurchasing: bool
    var loadError: Option<string>
    /** The device key-value store. */
    var defaults: Defaults
    /** The transactions finished with the store, in order. */
    var finished: seq<Transaction>

    function State(): Quota
      reads this
    {
      Quota(isSubscribed, freeUsesRemaining, defaults)
    }

    /** Fields the quota operations leave alone. */
    twostate predicate StoreFieldsUnchanged()
      reads this
    {
      products == old(products) && purchaseError == old(purchaseError)
      && isPurchasing == old(isPurchasing) && loadError == old(loadError)
      && finished == old(finished)
    }

    /** The manager on launch: not subscribed (the flag is not persisted),
        three free uses, then the stored quota loaded for today. Starting the
        update listener and the first status check are asynchronous and are
        the separate methods below. */
    constructor (stored: Defaults, today: int)
      ensures State() == Loaded(Quota(false, MaxFreeUses, stored), today)
      ensures !isSubscribed
      ensures products == [] && purchaseError == None && !isPurchasing && loadError == None
      ensures finished == []
    {
      isSubscribed := false;
      freeUsesRemaining := MaxFreeUses;
      products := [];
      purchaseError := None;
      isPurchasing := false;
      loadError := None;
      defaults := stored;
      finished := [];
      new;
      LoadFreeUses(today);
    }

    /** `isDevMode`: the persisted developer flag. */
    function IsDevMode(): bool
      reads this
    {
      defaults.devUnlimited
    }

    /** Sets the persisted developer flag; nothing else changes. */
    method EnableDevMode()
      modifies this
      ensures defaults == old(defaults).(devUnlimited := true)
      ensures IsDevMode()
      ensures isSubscribed == old(isSubscribed) && freeUsesRemaining == old(freeUsesRemaining)
      ensures StoreFieldsUnchanged()
    {
      defaults := defaults.(devUnlimited := true);
    }

    method SaveFreeUses(today: int)
      modifies this
      ensures defaults == Saved(old(defaults), freeUsesRemaining, today)
      ensures isSubscribed == old(isSubscribed) && freeUsesRemaining == old(freeUsesRemaining)
      ensures StoreFieldsUnchanged()
    {
      defaults := defaults.(freeUses := freeUsesRemaining, freeUsesDay := Some(today));
    }

    method LoadFreeUses(today: int)
      modifies this
      ensures State() == Loaded(old(State()), today)
      ensures StoreFieldsUnchanged()
    {
      if DayAdvanced(defaults.freeUsesDay, today) {
        freeUsesRemaining := MaxFreeUses;
        SaveFreeUses(today);
      } else {
        freeUsesRemaining := defaults.freeUses;
      }
    }

    /** Consumes one free use if the user may proceed. */
    method UseFreeUse(today: int) returns (granted: bool)
      modifies this
      ensures Gate(granted, State()) == UseFreeUseStep(old(State()), today)
      ensures StoreFieldsUnchanged()
    {
      if isSubscribed || IsDevMode() {
        return true;
      }
      LoadFreeUses(today);
      if freeUsesRemaining > 0 {
        freeUsesRemaining := freeUsesRemaining - 1;
        SaveFreeUses(today);
        return true;
      }
      return false;
    }

    /** Whether the user may proceed, without consuming a use. */
    method CanUse(today: int) returns (granted: bool)
      modifies this
      ensures Gate(granted, State()) == CanUseStep(old(State()), today)
      ensures StoreFieldsUnchanged()
    {
      if isSubscribed || IsDevMode() {
        return true;
      }
      LoadFreeUses(today);
      return freeUsesRemaining > 0;
    }

    /** Walks the current entitlements: subscribed exactly when one of them
        is verified and auto-renewable; a list without one revokes a
        previous subscription. */
    method CheckSubscriptionStatus(entitlements: seq<VerificationResult>)
      modifies this
      ensures isSubscribed == HasActiveSubscription(entitlements)
      ensures freeUsesRemaining == old(freeUsesRemaining) && defaults == old(defaults)
      ensures StoreFieldsUnchanged()
    {
      var hasActiveSubscription := false;
      for i := 0 to |entitlements|
        invariant hasActiveSubscription <==> exists j :: 0 <= j < i && GrantsSubscription(entitlements[j])
      {
        var checked := CheckVerified(entitlements[i]);
        if checked.Ok? {
          if checked.value.productType == AutoRenewable {
            hasActiveSubscription := true;
          }
        }
      }
      isSubscribed := hasActiveSubscription;
    }

    /** `restorePurchases`: a failed sync is ignored; the status is then
        recomputed from the entitlements. */
    method RestorePurchases(entitlements: seq<VerificationResult>)
      modifies this
      ensures isSubscribed == HasActiveSubscription(entitlements)
      ensures freeUsesRemaining == old(freeUsesRemaining) && defaults == old(defaults)
      ensures StoreFieldsUnchanged()
    {
      CheckSubscriptionStatus(entitlements);
    }

    /** A purchase. A verified success finishes the transaction and
        recomputes the status from `entitlementsAfter`; cancellation and
        unknown results leave no error; a pending result sets the pending
        message without a refresh; a thrown error, or a verification
        failure (whose description is `failedVerificationText`), sets the
        "purchase failed" message and skips finishing and refreshing. The
        purchasing flag is cleared at the end. */
    method Purchase(outcome: PurchaseOutcome, entitlementsAfter: seq<VerificationResult>,
                    failedVerificationText: string)
      modifies this
      ensures !isPurchasing
      ensures freeUsesRemaining == old(freeUsesRemaining) && defaults == old(defaults)
      ensures products == old(products) && loadError == old(loadError)
      ensures outcome.Completed? && outcome.result.Success? && outcome.result.verification.Verified? ==>
        finished == old(finished) + [outcome.result.verification.transaction]
        && isSubscribed == HasActiveSubscription(entitlementsAfter)
        && purchaseError == None
      ensures !(outcome.Completed? && outcome.result.Success? && outcome.result.verification.Verified?) ==>
        finished == old(finished) && isSubscribed == old(isSubscribed)
      ensures outcome.Completed? && outcome.result.Success? && outcome.result.verification.Unverified? ==>
        purchaseError == Some(PurchaseFailedPrefix + failedVerificationText)
      ensures outcome.Completed? && (outcome.result.UserCancelled? || outcome.result.Unknown?) ==>
        purchaseError == None
      ensures outcome.Completed? && outcome.result.Pending? ==> purchaseError == Some(PendingMessage)
      ensures outcome.Threw? ==> purchaseError == Some(PurchaseFailedPrefix + outcome.description)
    {
      isPurchasing := true;
      purchaseError := None;
      match outcome {
        case Threw(description) =>
          purchaseError := Some(PurchaseFailedPrefix + description);
        case Completed(result) =>
          match result {
            case Success(verification) =>
              var checked := CheckVerified(verification);
              match checked {
                case Err(_) =>
                  purchaseError := Some(PurchaseFailedPrefix + failedVerificationText);
                case Ok(transaction) =>
                  finished := finished + [transaction];
                  CheckSubscriptionStatus(entitlementsAfter);
              }
            case UserCancelled =>
            case Pending =>
              purchaseError := Some(PendingMessage);
            case Unknown =>
          }
      }
      isPurchasing := false;
    }

    /** `loadProducts`: asks the store for the product identifiers; found
        products replace the list cheapest first, and an empty answer sets the
        "no products" message; a failure sets the "load failed" message and
        keeps the previous list. */
    method LoadProducts(fetch: set<string> -> FetchOutcome)
      modifies this
      ensures var outcome := fetch(set id | id in ProductIds);
        (outcome.Fetched? ==>
          SortedByPrice(products) && multiset(products) == multiset(outcome.products)
          && (loadError == None <==> outcome.products != [])
          && (loadError != None ==> loadError == Some(NoProductsMessage)))
        && (outcome.FetchFailed? ==>
          products == old(products) && loadError == Some(LoadFailedPrefix + outcome.description))
      ensures isSubscribed == old(isSubscribed) && freeUsesRemaining == old(freeUsesRemaining)
      ensures defaults == old(defaults) && finished == old(finished)
      ensures purchaseError == old(purchaseError) && isPurchasing == old(isPurchasing)
    {
      loadError := None;
      var outcome := fetch(set id | id in ProductIds);
      match outcome
      case Fetched(fetched) =>
        products := SortByPrice(fetched);
        if products == [] {
          loadError := Some(NoProductsMessage);
        }
      case FetchFailed(description) =>
        loadError := Some(LoadFailedPrefix + description);
    }

    /** The update listener over the updates delivered so far: a verified
        update is finished and followed by a status refresh against the
        entitlements of that moment; an unverified one is skipped. */
    method ListenForTransactions(updates: seq<VerificationResult>,
                                 entitlementsAt: nat -> seq<VerificationResult>)
      modifies this
      ensures finished == old(finished) + FinishedBy(updates)
      ensures isSubscribed == SubscribedAfter(updates, entitlementsAt, old(isSubscribed))
      ensures freeUsesRemaining == old(freeUsesRemaining) && defaults == old(defaults)
      ensures products == old(products) && purchaseError == old(purchaseError)
      ensures isPurchasing == old(isPurchasing) && loadError == old(loadError)
    {
      for i := 0 to |updates|
        invariant finished == old(finished) + FinishedBy(updates[..i])
        invariant isSubscribed == SubscribedAfter(updates[..i], entitlementsAt, old(isSubscribed))
        invariant freeUsesRemaining == old(freeUsesRemaining) && defaults == old(defaults)
        invariant products == old(products) && purchaseError == old(purchaseError)
        invariant isPurchasing == old(isPurchasing) && loadError == old(loadError)
      {
        assert updates[..i + 1][..i] == updates[..i];
        match updates[i]
        case Verified(transaction) =>
          finished := finished + [transaction];
          CheckSubscriptionStatus(entitlementsAt(i));
        case Unverified =>
      }
      assert updates[..|updates|] == updates;
    }
  }
}
