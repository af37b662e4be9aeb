/**
 * The sign-in state shared by the front end (`src/frontend/src/contexts/AuthContext.tsx`):
 * the token, the user, the selected child, and the browser's localStorage
 * as a map from key to value. The profile request's answer is a parameter;
 * a string value of `""` is false in JavaScript, as a missing one is.
 */
module AuthContext {
  import opened Wrappers

  const TokenKey := "token"
  const SelectedChildKey := "selectedChildId"

  /** A present, non-empty string: what `if (x)` accepts. */
  predicate Truthy(x: Option<string>)
  {
    x.Some? && x.value != ""
  }

  datatype User = User(uid: string, email: string, displayName: Option<string>, photoURL: Option<string>,
                       accessToken: string, hasCompletedOnboarding: bool, childId: string)

  /** The body of `/api/user/profile`; `children` holds the children's ids. */
  datatype Profile = Profile(userId: string, email: string, name: Option<string>, picture: Option<string>,
                             accessToken: string, hasCompletedOnboarding: bool, childId: string,
                             selectedChildId: Option<string>, children: Option<seq<string>>)

  /** The profile request: the profile, or a failure (a non-OK status or a network error). */
  datatype ProfileResponse = ProfileOk(profile: Profile) | ProfileFailed

  function UserOf(p: Profile): User
  {
    User(p.userId, p.email, p.name, p.picture, p.accessToken, p.hasCompletedOnboarding, p.childId)
  }

  /** The chosen child, and the id written to storage (`None`: no write). */
  datatype Selection = Selection(selected: Option<string>, written: Option<string>)

  /**
   * The selected child after a profile load: the stored id if it is one of
   * the returned children, else the backend's choice, else the first child,
   * else unchanged. The last two are also written to storage.
   */
  function ResolveSelection(stored: Option<string>, p: Profile, current: Option<string>): (r: Selection)
    ensures r.written.Some? ==> r.selected == r.written
    ensures r.selected == current || r.selected == stored || r.selected == p.selectedChildId
      || (p.children.Some? && |p.children.value| > 0 && r.selected == Some(p.children.value[0]))
  {
    if Truthy(stored) && p.children.Some? && stored.value in p.children.value then Selection(stored, None)
    else if Truthy(p.selectedChildId) then Selection(p.selectedChildId, p.selectedChildId)
    else if p.children.Some? && |p.children.value| > 0 then Selection(Some(p.children.value[0]), Some(p.children.value[0]))
    else Selection(current, None)
  }

  /** The order of preference, each rule applying only when the earlier ones do not. */
  lemma ResolveSelectionOrder(stored: Option<string>, p: Profile, current: Option<string>)
    ensures var known := Truthy(stored) && p.children.Some? && stored.value in p.children.value;
      var r := ResolveSelection(stored, p, current);
      (known ==> r == Selection(stored, None))
      && (!known && Truthy(p.selectedChildId) ==> r == Selection(p.selectedChildId, p.selectedChildId))
      && (!known && !Truthy(p.selectedChildId) && p.children.Some? && |p.children.value| > 0 ==>
            r.selected == Some(p.children.value[0]) && r.written == r.selected)
      && (!known && !Truthy(p.selectedChildId) && (p.children.None? || p.children.value == []) ==>
            r == Selection(current, None))
  {
  }

  /** The storage after the selection's write. */
  function WriteSelection(storage: map<string, string>, s: Selection): (r: map<string, string>)
    ensures s.written.Some? ==> SelectedChildKey in r && r[SelectedChildKey] == s.written.value
    ensures forall k :: k != SelectedChildKey ==> (k in r <==> k in storage) && (k in r ==> r[k] == storage[k])
    ensures s.written.None? ==> r == storage
  {
    if s.written.Some? then storage[SelectedChildKey := s.written.value] else storage
  }

  /** Only when the stored id is kept or nothing is chosen does the selection leave storage alone. */
  lemma SelectionStoredWhenChosen(stored: Option<string>, p: Profile, current: Option<string>, storage: map<string, string>)
    requires stored == (if SelectedChildKey in storage then Some(storage[SelectedChildKey]) else None)
    ensures var r := ResolveSelection(stored, p, current);
      r.selected != current && r.selected.Some? ==>
        SelectedChildKey in WriteSelection(storage, r) && Some(WriteSelection(storage, r)[SelectedChildKey]) == r.selected
  {
  }

  class Auth {
    var isAuthenticated: bool
    var isLoading: bool
    var user: Option<User>
    var token: Option<string>
    var selectedChildId: Option<string>
    var storage: map<string, string>
    /** The `PUT /api/user/selected-child` requests sent: token and child id. */
    var childUpdates: seq<(string, string)>

    constructor(storage: map<string, string>)
      ensures !isAuthenticated && isLoading && user.None? && token.None? && selectedChildId.None?
      ensures this.storage == storage && childUpdates == []
    {
      isAuthenticated := false;
      isLoading := true;
      user := None;
      token := None;
      selectedChildId := None;
      this.storage := storage;
      childUpdates := [];
    }

    function Stored(key: string): Option<string>
      reads this
    {
      if key in storage then Some(storage[key]) else None
    }

    /**
     * `fetchUserData`: on success the user is set and the selected child
     * resolved; on failure the stored token, the token, the signed-in flag
     * and the user are cleared and the failure is passed on (`thrown`).
     * Loading is over either way.
     */
    method FetchUserData(response: ProfileResponse) returns (thrown: bool)
      modifies this
      ensures !isLoading
      ensures thrown <==> response.ProfileFailed?
      ensures response.ProfileOk? ==>
        var r := ResolveSelection(old(Stored(SelectedChildKey)), response.profile, old(selectedChildId));
        user == Some(UserOf(response.profile)) && selectedChildId == r.selected
        && storage == WriteSelection(old(storage), r)
        && isAuthenticated == old(isAuthenticated) && token == old(token)
      ensures response.ProfileFailed? ==>
        storage == old(storage) - {TokenKey} && token.None? && !isAuthenticated && user.None?
        && selectedChildId == old(selectedChildId)
      ensures childUpdates == old(childUpdates)
    {
      if response.ProfileFailed? {
        storage := storage - {TokenKey};
        token := None;
        isAuthenticated := false;
        user := None;
        isLoading := false;
        return true;
      }
      user := Some(UserOf(response.profile));
      var r := ResolveSelection(Stored(SelectedChildKey), response.profile, selectedChildId);
      selectedChildId := r.selected;
      storage := WriteSelection(storage, r);
      isLoading := false;
      return false;
    }

    /** The session check on start: a stored token signs in and loads the profile; otherwise nothing happens. */
    method RestoreSession(response: ProfileResponse)
      modifies this
      ensures !Truthy(old(Stored(TokenKey))) ==>
        isAuthenticated == old(isAuthenticated) && token == old(token) && user == old(user)
        && isLoading == old(isLoading) && storage == old(storage) && selectedChildId == old(selectedChildId)
      ensures Truthy(old(Stored(TokenKey))) ==>
        !isLoading
        && (response.ProfileOk? ==> isAuthenticated && token == old(Stored(TokenKey)) && user == Some(UserOf(response.profile)))
        && (response.ProfileFailed? ==> !isAuthenticated && token.None? && user.None? && TokenKey !in storage)
      ensures Truthy(old(Stored(TokenKey))) ==>
        var storedChild := old(Stored(SelectedChildKey));
        var preselected := if Truthy(storedChild) then storedChild else old(selectedChildId);
        (response.ProfileOk? ==>
           var r := ResolveSelection(storedChild, response.profile, preselected);
           selectedChildId == r.selected && storage == WriteSelection(old(storage), r))
        && (response.ProfileFailed? ==> selectedChildId == preselected && storage == old(storage) - {TokenKey})
      ensures childUpdates == old(childUpdates)
    {
      var storedToken := Stored(TokenKey);
      var storedChild := Stored(SelectedChildKey);
      if Truthy(storedToken) {
        token := storedToken;
        isAuthenticated := true;
        if Truthy(storedChild) {
          selectedChildId := storedChild;
        }
        var _ := FetchUserData(response);
      }
    }

    /** `login`: store the token and sign in, then load the profile. */
    method Login(newToken: string, response: ProfileResponse) returns (thrown: bool)
      modifies this
      ensures thrown <==> response.ProfileFailed?
      ensures !isLoading
      ensures response.ProfileOk? ==>
        isAuthenticated && token == Some(newToken) && TokenKey in storage && storage[TokenKey] == newToken
        && user == Some(UserOf(response.profile))
      ensures response.ProfileOk? ==>
        var r := ResolveSelection(old(Stored(SelectedChildKey)), response.profile, old(selectedChildId));
        selectedChildId == r.selected && storage == WriteSelection(old(storage)[TokenKey := newToken], r)
      ensures response.ProfileFailed? ==> !isAuthenticated && token.None? && user.None? && TokenKey !in storage
      ensures response.ProfileFailed? ==>
        storage == old(storage)[TokenKey := newToken] - {TokenKey} && selectedChildId == old(selectedChildId)
      ensures childUpdates == old(childUpdates)
    {
      storage := storage[TokenKey := newToken];
      token := Some(newToken);
      isAuthenticated := true;
      thrown := FetchUserData(response);
    }

    /** `logout`: the token and the selected child leave storage and state; the user is signed out. */
    method Logout()
      modifies this
      ensures storage == old(storage) - {TokenKey, SelectedChildKey}
      ensures token.None? && !isAuthenticated && user.None? && selectedChildId.None?
      ensures isLoading == old(isLoading) && childUpdates == old(childUpdates)
    {
      storage := storage - {TokenKey, SelectedChildKey};
      token := None;
      isAuthenticated := false;
      user := None;
      selectedChildId := None;
    }

    /**
     * `setSelectedChildId`: an id is stored and selected first, then sent to
     * the backend when signed in; a failed request changes nothing. No id
     * clears the selection.
     */
    method SetSelectedChildId(childId: Option<string>)
      modifies this
      ensures Truthy(childId) ==>
        storage == old(storage)[SelectedChildKey := childId.value] && selectedChildId == childId
        && childUpdates == old(childUpdates) + (if Truthy(token) then [(token.value, childId.value)] else [])
      ensures !Truthy(childId) ==>
        storage == old(storage) - {SelectedChildKey} && selectedChildId.None? && childUpdates == old(childUpdates)
      ensures isAuthenticated == old(isAuthenticated) && token == old(token) && user == old(user) && isLoading == old(isLoading)
    {
      if Truthy(childId) {
        storage := storage[SelectedChildKey := childId.value];
        selectedChildId := childId;
        if Truthy(token) {
          childUpdates := childUpdates + [(token.value, childId.value)];
        }
      } else {
        storage := storage - {SelectedChildKey};
        selectedChildId := None;
      }
    }
  }
}
