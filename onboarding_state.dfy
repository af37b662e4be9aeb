/**
 * The onboarding context (`src/frontend/src/components/onboarding/OnboardingState.tsx`):
 * the wizard step, the parent and family details and the list of children
 * still to be created.
 */
module OnboardingState {

  /** A child as entered on the form; the optional fields are empty strings when not given. */
  datatype ChildEntry = ChildEntry(name: string, birthdate: string, gender: string)

  /** Welcome, parent details, family and children, completion. */
  const TotalSteps := 4

  /** `prev.filter((_, i) => i !== index)`: the list without the entry at `index`. */
  function WithoutIndex<T>(s: seq<T>, index: int): (r: seq<T>)
    ensures |r| <= |s|
  {
    if s == [] then []
    else WithoutIndex(s[..|s| - 1], index) + (if |s| - 1 != index then [s[|s| - 1]] else [])
  }

  /**
   * An index in range removes exactly that entry and keeps the others in
   * order; any other index removes nothing.
   */
  lemma {:induction false} WithoutIndexSplices<T>(s: seq<T>, index: int)
    ensures 0 <= index < |s| ==> WithoutIndex(s, index) == s[..index] + s[index + 1..]
    ensures !(0 <= index < |s|) ==> WithoutIndex(s, index) == s
    decreases |s|
  {
    if s != [] {
      var front := s[..|s| - 1];
      WithoutIndexSplices(front, index);
      if index == |s| - 1 {
        assert s[..index] == front;
      } else if 0 <= index < |s| - 1 {
        assert front[..index] == s[..index];
        assert front[index + 1..] + [s[|s| - 1]] == s[index + 1..];
      } else {
        assert front + [s[|s| - 1]] == s;
      }
    }
  }

  /** Adding a child and then removing the last index gives back the list. */
  lemma AddThenRemoveLast<T>(s: seq<T>, x: T)
    ensures WithoutIndex(s + [x], |s|) == s
  {
    WithoutIndexSplices(s + [x], |s|);
    assert (s + [x])[..|s|] == s;
  }

  class Onboarding {
    var currentStep: int
    var userName: string
    var userEmail: string
    var familyName: string
    var children: seq<ChildEntry>

    /** The provider's initial state. */
    constructor()
      ensures currentStep == 1
      ensures userName == "" && userEmail == "" && familyName == ""
      ensures children == []
    {
      currentStep := 1;
      userName := "";
      userEmail := "";
      familyName := "";
      children := [];
    }

    method SetCurrentStep(step: int)
      modifies this
      ensures currentStep == step
      ensures userName == old(userName) && userEmail == old(userEmail) && familyName == old(familyName)
      ensures children == old(children)
    {
      currentStep := step;
    }

    method SetUserData(name: string, email: string)
      modifies this
      ensures userName == name && userEmail == email
      ensures currentStep == old(currentStep) && familyName == old(familyName) && children == old(children)
    {
      userName := name;
      userEmail := email;
    }

    method SetFamilyData(name: string)
      modifies this
      ensures familyName == name
      ensures currentStep == old(currentStep) && userName == old(userName) && userEmail == old(userEmail)
      ensures children == old(children)
    {
      familyName := name;
    }

    /** `addChild`: append at the end. */
    method AddChild(child: ChildEntry)
      modifies this
      ensures children == old(children) + [child]
      ensures |children| == |old(children)| + 1 && children[..|old(children)|] == old(children)
      ensures currentStep == old(currentStep) && userName == old(userName) && userEmail == old(userEmail)
      ensures familyName == old(familyName)
    {
      children := children + [child];
    }

    /** `removeChild`: filter out the entry at `index`, if there is one. */
    method RemoveChild(index: int)
      modifies this
      ensures children == WithoutIndex(old(children), index)
      ensures 0 <= index < |old(children)| ==> children == old(children)[..index] + old(children)[index + 1..]
      ensures !(0 <= index < |old(children)|) ==> children == old(children)
      ensures currentStep == old(currentStep) && userName == old(userName) && userEmail == old(userEmail)
      ensures familyName == old(familyName)
    {
      WithoutIndexSplices(children, index);
      children := WithoutIndex(children, index);
    }
  }
}
