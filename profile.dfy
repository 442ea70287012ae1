/**
 * The profile page (static/js/profile.js): the profile header, the account
 * form with its edit mode and save, the recent-activity list with its
 * "View All" toggle, and the delete-account confirmation gate.
 */
module Profile {
  import opened Wrappers
  import opened Text

  const DefaultAvatar := "/static/img/default-profile.svg"

  /** The user record /api/users/me serves; a null field is "". */
  datatype User = User(fullName: string, username: string, email: string, avatarUrl: string)

  datatype Activity = Activity(description: string, targetName: string, timeAgo: string)

  /** The header name: the full name, else the username, else "User". */
  function DisplayName(u: User): (name: string)
    ensures name != ""
    ensures u.fullName != "" ==> name == u.fullName
    ensures u.fullName == "" && u.username != "" ==> name == u.username
    ensures u.fullName == "" && u.username == "" ==> name == "User"
  {
    if u.fullName != "" then u.fullName else if u.username != "" then u.username else "User"
  }

  /** The avatar: the user's image unless it is missing or blank, then the default picture. */
  function AvatarOf(u: User): (src: string)
    ensures AllSpace(u.avatarUrl) ==> src == DefaultAvatar
    ensures !AllSpace(u.avatarUrl) ==> src == u.avatarUrl
  {
    TrimEmptyIffAllSpace(u.avatarUrl);
    if u.avatarUrl != "" && Trim(u.avatarUrl) != "" then u.avatarUrl else DefaultAvatar
  }

  function Min(a: int, b: int): int { if a < b then a else b }

  /** checkDeleteConfirmation: the final delete button is enabled only for "DELETE" (after trimming) and the box ticked. */
  function DeleteEnabled(confirmation: string, understood: bool): (enabled: bool)
    ensures enabled ==> understood && |Trim(confirmation)| == 6
    ensures enabled <==> Trim(confirmation) == "DELETE" && understood
  {
    Trim(confirmation) == "DELETE" && understood
  }

  /** Blanks around the word do not matter to the gate, but its case does. */
  lemma DeleteGateIgnoresBlanks(pre: string, post: string)
    requires AllSpace(pre) && AllSpace(post)
    ensures DeleteEnabled(pre + "DELETE" + post, true)
    ensures !DeleteEnabled(pre + "delete" + post, true)
  {
    TrimPadded(pre, "DELETE", post);
    TrimPadded(pre, "delete", post);
    assert "delete" != "DELETE" by {
      assert "delete"[0] != "DELETE"[0];
    }
  }

  class ProfilePage {
    var isEditMode: bool
    /** originalProfileData: the values last loaded or saved. */
    var originalFullName: string
    var originalUsername: string
    /** The two editable inputs of the account form. */
    var fullNameField: string
    var usernameField: string
    var displayName: string
    var avatar: string

    var allActivities: seq<Activity>
    var showingAllActivities: bool
    /** The activities rendered in the list. */
    var shown: seq<Activity>
    var viewAllVisible: bool
    var viewAllText: string
    var viewLessVisible: bool

    var deleteDisabled: bool

    /**
     * Outside edit mode the form shows the saved profile; the rendered list
     * is always the first three activities or all of them, matching the
     * flag, with "Show Less" visible exactly when all are shown.
     */
    ghost predicate Valid()
      reads this
    {
      FormShowsSaved() && ListMatchesFlag()
    }

    ghost predicate FormShowsSaved()
      reads this
    {
      !isEditMode ==> fullNameField == originalFullName && usernameField == originalUsername
    }

    ghost predicate ListMatchesFlag()
      reads this
    {
      && (showingAllActivities ==> shown == allActivities)
      && (!showingAllActivities ==> shown == allActivities[..Min(3, |allActivities|)])
      && viewLessVisible == showingAllActivities
    }

    constructor ()
      ensures Valid() && !isEditMode && allActivities == [] && shown == [] && deleteDisabled
    {
      isEditMode := false;
      originalFullName, originalUsername := "", "";
      fullNameField, usernameField := "", "";
      displayName, avatar := "", DefaultAvatar;
      allActivities, showingAllActivities, shown := [], false, [];
      viewAllVisible, viewAllText, viewLessVisible := false, "", false;
      deleteDisabled := true;
    }

    /** populateProfileData: header, avatar and form from the user; the form values become the saved ones. */
    method PopulateProfileData(u: User)
      requires Valid() && !isEditMode
      modifies this
      ensures Valid() && !isEditMode
      ensures displayName == DisplayName(u) && avatar == AvatarOf(u)
      ensures fullNameField == u.fullName && usernameField == u.username
      ensures originalFullName == u.fullName && originalUsername == u.username
      ensures allActivities == old(allActivities) && shown == old(shown)
      ensures showingAllActivities == old(showingAllActivities) && deleteDisabled == old(deleteDisabled)
    {
      displayName := DisplayName(u);
      avatar := AvatarOf(u);
      fullNameField, usernameField := u.fullName, u.username;
      originalFullName, originalUsername := u.fullName, u.username;
    }

    /** showRecentActivities: the first three, "View All (n)" when there are more; nothing happens with none. */
    method ShowRecentActivities()
      requires FormShowsSaved() && (ListMatchesFlag() || |allActivities| > 0)
      modifies this
      ensures Valid()
      ensures |allActivities| > 0 ==> !showingAllActivities && shown == allActivities[..Min(3, |allActivities|)]
      ensures |allActivities| > 0 ==> (viewAllVisible <==> |allActivities| > 3)
      ensures |allActivities| > 3 ==> viewAllText == "View All (" + IntToString(|allActivities|) + ")"
      ensures |allActivities| == 0 ==> shown == old(shown) && showingAllActivities == old(showingAllActivities)
      ensures allActivities == old(allActivities) && isEditMode == old(isEditMode)
      ensures fullNameField == old(fullNameField) && usernameField == old(usernameField)
      ensures originalFullName == old(originalFullName) && originalUsername == old(originalUsername)
      ensures deleteDisabled == old(deleteDisabled)
    {
      if |allActivities| == 0 {
        return;
      }
      shown := allActivities[..Min(3, |allActivities|)];
      if |allActivities| > 3 {
        viewAllVisible := true;
        viewAllText := "View All (" + IntToString(|allActivities|) + ")";
      } else {
        viewAllVisible := false;
      }
      viewLessVisible := false;
      showingAllActivities := false;
    }

    /** showAllActivities: every activity, the button reading "Show Less" and the bottom link shown. */
    method ShowAllActivities()
      requires Valid()
      modifies this
      ensures Valid()
      ensures showingAllActivities && shown == allActivities && viewAllText == "Show Less"
      ensures viewAllVisible == old(viewAllVisible)
      ensures allActivities == old(allActivities) && isEditMode == old(isEditMode)
      ensures fullNameField == old(fullNameField) && usernameField == old(usernameField)
      ensures originalFullName == old(originalFullName) && originalUsername == old(originalUsername)
      ensures deleteDisabled == old(deleteDisabled)
    {
      shown := allActivities;
      viewAllText := "Show Less";
      viewLessVisible := true;
      showingAllActivities := true;
    }

    /** loadRecentActivity: the served list replaces the old one and its first three are shown. */
    method LoadRecentActivity(served: seq<Activity>)
      requires Valid()
      modifies this
      ensures Valid()
      ensures allActivities == served
      ensures served != [] ==> !showingAllActivities && shown == served[..Min(3, |served|)]
      ensures isEditMode == old(isEditMode) && deleteDisabled == old(deleteDisabled)
      ensures fullNameField == old(fullNameField) && usernameField == old(usernameField)
      ensures originalFullName == old(originalFullName) && originalUsername == old(originalUsername)
    {
      allActivities := served;
      if served == [] {
        shown := [];
        return;
      }
      ShowRecentActivities();
    }

    /** toggleAllActivities: between the first three and all of them, the flag flipping each time. */
    method ToggleAllActivities()
      requires Valid() && |allActivities| > 0
      modifies this
      ensures Valid()
      ensures showingAllActivities == !old(showingAllActivities)
      ensures shown == (if showingAllActivities then allActivities else allActivities[..Min(3, |allActivities|)])
      ensures allActivities == old(allActivities) && isEditMode == old(isEditMode)
      ensures fullNameField == old(fullNameField) && usernameField == old(usernameField)
      ensures originalFullName == old(originalFullName) && originalUsername == old(originalUsername)
      ensures deleteDisabled == old(deleteDisabled)
    {
      if showingAllActivities {
        ShowRecentActivities();
      } else {
        ShowAllActivities();
      }
    }

    /** toggleEditMode: leaving edit mode puts the saved values back into the form. */
    method ToggleEditMode()
      requires Valid()
      modifies this
      ensures Valid()
      ensures isEditMode == !old(isEditMode)
      ensures isEditMode ==> fullNameField == old(fullNameField) && usernameField == old(usernameField)
      ensures !isEditMode ==> fullNameField == originalFullName && usernameField == originalUsername
      ensures originalFullName == old(originalFullName) && originalUsername == old(originalUsername)
      ensures displayName == old(displayName)
      ensures allActivities == old(allActivities) && shown == old(shown)
      ensures showingAllActivities == old(showingAllActivities) && deleteDisabled == old(deleteDisabled)
    {
      isEditMode := !isEditMode;
      if !isEditMode {
        fullNameField := originalFullName;
        usernameField := originalUsername;
      }
    }

    /** Typing into the form; the inputs are read-only outside edit mode. */
    method EditFields(fullName: string, username: string)
      requires Valid()
      modifies this
      ensures Valid()
      ensures isEditMode ==> fullNameField == fullName && usernameField == username
      ensures !isEditMode ==> fullNameField == old(fullNameField) && usernameField == old(usernameField)
      ensures isEditMode == old(isEditMode)
      ensures originalFullName == old(originalFullName) && originalUsername == old(originalUsername)
      ensures allActivities == old(allActivities) && shown == old(shown)
      ensures showingAllActivities == old(showingAllActivities) && deleteDisabled == old(deleteDisabled)
    {
      if isEditMode {
        fullNameField, usernameField := fullName, username;
      }
    }

    /**
     * saveProfile: blank trimmed values send nothing; otherwise the trimmed
     * values are sent, and when the server accepts them (accepted, its
     * answer) they become the saved values and the header name, and edit
     * mode is toggled off.
     */
    method SaveProfile(accepted: bool) returns (request: Option<(string, string)>)
      requires Valid() && isEditMode
      modifies this
      ensures Valid()
      ensures request.None? <==> Trim(old(fullNameField)) == "" || Trim(old(usernameField)) == ""
      ensures request.Some? ==> request.value == (Trim(old(fullNameField)), Trim(old(usernameField)))
      ensures request.Some? && accepted ==>
                && !isEditMode && displayName == request.value.0
                && originalFullName == request.value.0 && originalUsername == request.value.1
                && fullNameField == request.value.0 && usernameField == request.value.1
      ensures request.None? || !accepted ==>
                && isEditMode && fullNameField == old(fullNameField) && usernameField == old(usernameField)
                && originalFullName == old(originalFullName) && originalUsername == old(originalUsername)
      ensures allActivities == old(allActivities) && shown == old(shown)
      ensures showingAllActivities == old(showingAllActivities) && deleteDisabled == old(deleteDisabled)
    {
      var fullName := Trim(fullNameField);
      var username := Trim(usernameField);
      if fullName == "" || username == "" {
        return None;
      }
      request := Some((fullName, username));
      if accepted {
        originalFullName := fullName;
        originalUsername := username;
        displayName := fullName;
        ToggleEditMode();
      }
    }

    /** The confirmation text or the checkbox changed. */
    method CheckDeleteConfirmation(confirmation: string, understood: bool)
      modifies this
      ensures deleteDisabled == !DeleteEnabled(confirmation, understood)
      ensures isEditMode == old(isEditMode) && fullNameField == old(fullNameField) && usernameField == old(usernameField)
      ensures originalFullName == old(originalFullName) && originalUsername == old(originalUsername)
      ensures allActivities == old(allActivities) && shown == old(shown)
      ensures showingAllActivities == old(showingAllActivities) && viewLessVisible == old(viewLessVisible)
    {
      deleteDisabled := !(Trim(confirmation) == "DELETE" && understood);
    }

    /** Hiding the modal clears it, so the button starts disabled next time. */
    method HideDeleteModal()
      modifies this
      ensures deleteDisabled
      ensures isEditMode == old(isEditMode) && fullNameField == old(fullNameField) && usernameField == old(usernameField)
      ensures originalFullName == old(originalFullName) && originalUsername == old(originalUsername)
      ensures allActivities == old(allActivities) && shown == old(shown)
      ensures showingAllActivities == old(showingAllActivities) && viewLessVisible == old(viewLessVisible)
    {
      deleteDisabled := true;
    }
  }
}
