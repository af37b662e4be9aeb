/**
 * The family and children step of onboarding
 * (`src/frontend/src/components/onboarding/FamilyChildScreen.tsx`): the
 * guards on adding a child and the sequential requests of Complete Setup.
 * How each request ends is a parameter (`Fetch.Reply`): `child(i)` is the
 * reply to creating the i-th child. localStorage is the same key-to-value map as in
 * `AuthContext`.
 */
module FamilyChildScreen {
  import opened OnboardingState
  import AuthContext
  import opened Fetch

  const DuplicateName := "A child with this name already exists"
  const NoToken := "No authentication token found"
  const FamilyFailed := "Failed to create family"
  const ChildFailed := "Failed to create child profile"
  const CompleteFailed := "Failed to complete onboarding"

  /** No two children share a name. */
  predicate DistinctNames(children: seq<ChildEntry>)
  {
    forall i, j :: 0 <= i < j < |children| ==> children[i].name != children[j].name
  }

  /** `children.some(child => child.name === name)`. */
  predicate NameTaken(children: seq<ChildEntry>, name: string)
  {
    exists i :: 0 <= i < |children| && children[i].name == name
  }

  /** A name not yet taken keeps the names distinct when appended. */
  lemma AppendFreshName(children: seq<ChildEntry>, child: ChildEntry)
    requires DistinctNames(children) && !NameTaken(children, child.name)
    ensures DistinctNames(children + [child])
  {
    var s := children + [child];
    forall i, j | 0 <= i < j < |s| ensures s[i].name != s[j].name {
      if j == |children| {
        assert s[i] == children[i];
      }
    }
  }

  /** A request the step sends, in order. */
  datatype Request = CreateFamily(familyName: string) | CreateChild(child: ChildEntry) | CompleteOnboarding

  /** The child requests for a list, one per child in order. */
  function ChildRequests(children: seq<ChildEntry>): (r: seq<Request>)
    ensures |r| == |children|
    ensures forall i :: 0 <= i < |children| ==> r[i] == CreateChild(children[i])
  {
    seq(|children|, i requires 0 <= i < |children| => CreateChild(children[i]))
  }

  /** The first child from `from` on whose creation fails, or `n` when none does. */
  function FirstFailure(child: nat -> Reply, from: nat, n: nat): (k: nat)
    requires from <= n
    ensures from <= k <= n
    ensures forall j :: from <= j < k ==> Succeeded(child(j))
    ensures k < n ==> !Succeeded(child(k))
    decreases n - from
  {
    if from == n then n else if !Succeeded(child(from)) then from else FirstFailure(child, from + 1, n)
  }

  /** The first failure is the earliest index that fails. */
  lemma {:induction false} FirstFailureAt(child: nat -> Reply, from: nat, n: nat, k: nat)
    requires from <= k < n && !Succeeded(child(k))
    requires forall j :: from <= j < k ==> Succeeded(child(j))
    ensures FirstFailure(child, from, n) == k
    decreases k - from
  {
    if from < k {
      FirstFailureAt(child, from + 1, n, k);
    }
  }

  /** The outcome of Complete Setup: the requests sent, the error shown, and whether it went on to the dashboard. */
  datatype Outcome = Outcome(requests: seq<Request>, error: string, navigated: bool)

  /**
   * The requests of `handleSubmit`: the family, then the children in list
   * order up to and including the first failure, then completion only if
   * every child was created. A failure shows the rejection's message or
   * the failing step's own text; only a rejection with an empty message
   * leaves no error without reaching the dashboard.
   */
  function Submitted(hasToken: bool, family: Reply, child: nat -> Reply, complete: Reply,
                     familyName: string, children: seq<ChildEntry>): (o: Outcome)
    ensures o.navigated ==> o.error == ""
    ensures Audible(family) && Audible(complete) && (forall i :: 0 <= i < |children| ==> Audible(child(i))) ==>
      (o.navigated <==> o.error == "")
  {
    if !hasToken then Outcome([], NoToken, false)
    else if !Succeeded(family) then Outcome([CreateFamily(familyName)], FailureMessage(family, FamilyFailed), false)
    else
      var k := FirstFailure(child, 0, |children|);
      if k < |children| then
        Outcome([CreateFamily(familyName)] + ChildRequests(children[..k + 1]), FailureMessage(child(k), ChildFailed), false)
      else
        var sent := [CreateFamily(familyName)] + ChildRequests(children) + [CompleteOnboarding];
        if Succeeded(complete) then Outcome(sent, "", true)
        else Outcome(sent, FailureMessage(complete, CompleteFailed), false)
  }

  /** Each step's failure shows the rejection's message, or that step's own text after a non-ok response. */
  lemma SubmittedErrors(hasToken: bool, family: Reply, child: nat -> Reply, complete: Reply,
                        familyName: string, children: seq<ChildEntry>)
    ensures var o := Submitted(hasToken, family, child, complete, familyName, children);
      && (!hasToken ==> o.error == NoToken)
      && (hasToken && !Succeeded(family) ==>
            o.error == if family.Rejected? then family.message else FamilyFailed)
      && (forall k :: (0 <= k < |children| && hasToken && Succeeded(family) && !Succeeded(child(k))
                       && (forall j :: 0 <= j < k ==> Succeeded(child(j)))) ==>
            o.error == if child(k).Rejected? then child(k).message else ChildFailed)
      && ((hasToken && Succeeded(family) && (forall i :: 0 <= i < |children| ==> Succeeded(child(i)))
           && !Succeeded(complete)) ==>
            o.error == if complete.Rejected? then complete.message else CompleteFailed)
  {
    forall k | 0 <= k < |children| && hasToken && Succeeded(family) && !Succeeded(child(k))
              && (forall j :: 0 <= j < k ==> Succeeded(child(j)))
    {
      FirstFailureAt(child, 0, |children|, k);
    }
  }

  /**
   * Onboarding is marked complete only once every child was created, each
   * child's request in list order; the dashboard is reached only when all
   * requests succeed.
   */
  lemma SubmittedOrder(hasToken: bool, family: Reply, child: nat -> Reply, complete: Reply,
                       familyName: string, children: seq<ChildEntry>)
    ensures var o := Submitted(hasToken, family, child, complete, familyName, children);
      (CompleteOnboarding in o.requests ==>
         (forall i :: 0 <= i < |children| ==> Succeeded(child(i)))
         && o.requests == [CreateFamily(familyName)] + ChildRequests(children) + [CompleteOnboarding])
      && (o.navigated <==> hasToken && Succeeded(family) && Succeeded(complete) && forall i :: 0 <= i < |children| ==> Succeeded(child(i)))
      && (forall i :: 1 <= i < |o.requests| && o.requests[i].CreateChild? ==> o.requests[i] == CreateChild(children[i - 1]))
  {
    var o := Submitted(hasToken, family, child, complete, familyName, children);
    if hasToken && Succeeded(family) {
      var k := FirstFailure(child, 0, |children|);
      if k < |children| {
        assert CompleteOnboarding !in o.requests by {
          forall r | r in o.requests ensures r != CompleteOnboarding {
            var i :| 0 <= i < |o.requests| && o.requests[i] == r;
            if i > 0 {
              assert o.requests[i] == ChildRequests(children[..k + 1])[i - 1];
            }
          }
        }
      }
    }
  }

  /** The key the handler reads its token from, as written. */
  const AsWrittenTokenKey := "jwt"

  /** `localStorage.getItem(key)` is a non-empty string. */
  predicate HasToken(storage: map<string, string>, key: string)
  {
    key in storage && storage[key] != ""
  }

  /**
   * As written, the handler reads the key `jwt`, which sign-in never
   * writes (`AuthContext.Auth.Login` stores the token under `token`): a
   * signed-in user with no `jwt` entry gets the no-token error and no
   * request is sent.
   */
  lemma SignedInSubmitFindsNoToken(storage: map<string, string>, newToken: string, family: Reply,
                                   child: nat -> Reply, complete: Reply, familyName: string,
                                   children: seq<ChildEntry>)
    requires AsWrittenTokenKey !in storage
    ensures var o := Submitted(HasToken(storage[AuthContext.TokenKey := newToken], AsWrittenTokenKey),
                               family, child, complete, familyName, children);
      o == Outcome([], NoToken, false)
  {
    assert AuthContext.TokenKey != AsWrittenTokenKey by {
      assert AuthContext.TokenKey[0] != AsWrittenTokenKey[0];
    }
  }

  /**
   * Reading the key sign-in writes, a signed-in user's submit sends the
   * family request first and reaches the dashboard exactly when every
   * request succeeds.
   */
  lemma SignedInSubmitProceeds(storage: map<string, string>, newToken: string, family: Reply,
                               child: nat -> Reply, complete: Reply, familyName: string,
                               children: seq<ChildEntry>)
    requires newToken != ""
    ensures var o := Submitted(HasToken(storage[AuthContext.TokenKey := newToken], AuthContext.TokenKey),
                               family, child, complete, familyName, children);
      |o.requests| > 0 && o.requests[0] == CreateFamily(familyName)
      && (o.navigated <==> Succeeded(family) && Succeeded(complete) && forall i :: 0 <= i < |children| ==> Succeeded(child(i)))
  {
    SubmittedOrder(true, family, child, complete, familyName, children);
  }

  class Screen {
    /** The shared onboarding state. */
    const state: Onboarding
    var newChild: ChildEntry
    var error: string
    var isSubmitting: bool

    constructor(state: Onboarding)
      ensures this.state == state
      ensures newChild == ChildEntry("", "", "") && error == "" && !isSubmitting
    {
      this.state := state;
      newChild := ChildEntry("", "", "");
      error := "";
      isSubmitting := false;
    }

    /** Complete Setup is disabled while submitting or with no child entered. */
    predicate SubmitDisabled()
      reads this, state
    {
      isSubmitting || |state.children| == 0
    }

    /**
     * `handleAddChild`: an empty name does nothing; a name already in the
     * list sets the error and adds nothing; otherwise the child is appended
     * and the form is cleared.
     */
    method HandleAddChild()
      modifies this, state
      ensures old(newChild).name == "" ==> state.children == old(state.children) && newChild == old(newChild) && error == old(error)
      ensures old(newChild).name != "" && NameTaken(old(state.children), old(newChild).name) ==>
        state.children == old(state.children) && error == DuplicateName && newChild == old(newChild)
      ensures old(newChild).name != "" && !NameTaken(old(state.children), old(newChild).name) ==>
        state.children == old(state.children) + [old(newChild)] && newChild == ChildEntry("", "", "") && error == old(error)
      ensures DistinctNames(old(state.children)) ==> DistinctNames(state.children)
      ensures isSubmitting == old(isSubmitting)
      ensures state.currentStep == old(state.currentStep) && state.familyName == old(state.familyName)
    {
      if newChild.name == "" {
        return;
      }
      if exists i :: 0 <= i < |state.children| && state.children[i].name == newChild.name {
        error := DuplicateName;
        return;
      }
      if DistinctNames(state.children) {
        AppendFreshName(state.children, newChild);
      }
      state.AddChild(newChild);
      newChild := ChildEntry("", "", "");
    }

    /**
     * `handleSubmit`: the family request, then one request per child in a
     * loop that stops at the first failure, then the completion request.
     * The button is the form's only submit control, so the form is not
     * submitted while it is disabled. The token is read from the key
     * sign-in writes (see `SignedInSubmitFindsNoToken` for the key as
     * written).
     */
    method HandleSubmit(storage: map<string, string>, family: Reply, child: nat -> Reply, complete: Reply)
      returns (requests: seq<Request>, navigated: bool)
      requires !SubmitDisabled()
      modifies this
      ensures HasToken(storage, AuthContext.TokenKey) && Succeeded(family) ==>
        |requests| >= 2 && requests[1] == CreateChild(state.children[0])
      ensures Submitted(HasToken(storage, AuthContext.TokenKey), family, child, complete, state.familyName, state.children)
        == Outcome(requests, error, navigated)
      ensures !isSubmitting
      ensures newChild == old(newChild)
    {
      isSubmitting := true;
      error := "";
      requests := [];
      navigated := false;
      if !HasToken(storage, AuthContext.TokenKey) {
        error := NoToken;
        isSubmitting := false;
        return;
      }
      requests := [CreateFamily(state.familyName)];
      if !Succeeded(family) {
        error := FailureMessage(family, FamilyFailed);
        isSubmitting := false;
        return;
      }
      var children := state.children;
      var i := 0;
      while i < |children|
        invariant 0 <= i <= |children|
        invariant forall j :: 0 <= j < i ==> Succeeded(child(j))
        invariant requests == [CreateFamily(state.familyName)] + ChildRequests(children[..i])
      {
        requests := requests + [CreateChild(children[i])];
        assert ChildRequests(children[..i + 1]) == ChildRequests(children[..i]) + [CreateChild(children[i])];
        if !Succeeded(child(i)) {
          FirstFailureAt(child, 0, |children|, i);
          error := FailureMessage(child(i), ChildFailed);
          isSubmitting := false;
          return;
        }
        i := i + 1;
      }
      assert children[..i] == children;
      requests := requests + [CompleteOnboarding];
      if !Succeeded(complete) {
        error := FailureMessage(complete, CompleteFailed);
        isSubmitting := false;
        return;
      }
      navigated := true;
      isSubmitting := false;
    }
  }
}
