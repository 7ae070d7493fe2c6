/** The profile page (ProfilePage.jsx) and the `updateProfile` it calls
    (AuthContext.jsx lines 75-80): the edit form, saving it, and
    cancelling an edit. */
module Profile {
  import opened Wrappers
  import opened Entities
  import Text
  import Database

  datatype ProfileForm = ProfileForm(name: string, bio: string, skills: string, interests: string, experienceLevel: string)

  const DefaultLevel := "intermediate"

  /** The form filled from the signed-in user; also what `handleCancel`
      puts back. */
  function InitialProfileForm(user: Option<User>): (f: ProfileForm)
    ensures user.None? ==> f == ProfileForm("", "", "", "", DefaultLevel)
    ensures user.Some? ==>
      && f.name == user.value.name && f.bio == user.value.bio
      && f.experienceLevel == (if user.value.experienceLevel == "" then DefaultLevel else user.value.experienceLevel)
      && f.experienceLevel != ""
    ensures user.Some? ==>
      f.skills == Text.ListText(user.value.skills) && f.interests == Text.ListText(user.value.interests)
  {
    match user
    case None => ProfileForm("", "", "", "", DefaultLevel)
    case Some(u) =>
      ProfileForm(u.name, u.bio, Text.ListText(u.skills), Text.ListText(u.interests), Text.OrElse(u.experienceLevel, DefaultLevel))
  }

  /** `handleSave`: the form's five fields, with both lists parsed. */
  function SavePatch(f: ProfileForm): (p: UserPatch)
    ensures p.id.None? && p.email.None? && p.password.None?
    ensures p.profilePicture.None? && p.createdAt.None? && p.profileScore.None?
    ensures p.name == Some(f.name) && p.bio == Some(f.bio) && p.experienceLevel == Some(f.experienceLevel)
    ensures Text.WellFormedList(p.skills) && Text.WellFormedList(p.interests)
    ensures p.skills == Some(Text.ParseList(f.skills)) && p.interests == Some(Text.ParseList(f.interests))
  {
    NoUserChange.(name := Some(f.name), bio := Some(f.bio), skills := Some(Text.ParseList(f.skills)),
                  interests := Some(Text.ParseList(f.interests)), experienceLevel := Some(f.experienceLevel))
  }

  /** A user record with the form's five fields written in and every other
      field (id, email, password, picture, creation time, score) kept. */
  function WithForm(u: User, f: ProfileForm): User {
    u.(name := f.name, bio := f.bio, skills := Some(Text.ParseList(f.skills)),
       interests := Some(Text.ParseList(f.interests)), experienceLevel := f.experienceLevel)
  }

  /** Merging the save patch writes exactly the form's fields. */
  lemma {:induction false} MergeIsWithForm(u: User, f: ProfileForm)
    ensures MergeUser(u, SavePatch(f)) == WithForm(u, f)
  {
  }

  /** The session's user and the store after a save. */
  datatype Saved = Saved(session: User, store: Database.Store)

  /** `updateProfile(updates)`: the session record and the stored record
      both take the patch. */
  function Save(st: Database.Store, session: User, f: ProfileForm): (r: Saved)
    ensures r.session.id == session.id && r.session.email == session.email && r.session.password == session.password
    ensures |r.store.users| == |st.users|
    ensures forall i :: Database.FirstUser(st.users, session.id, i) ==>
      && r.store.users[i].email == st.users[i].email
      && r.store.users[i].password == st.users[i].password
      && r.store.users[i].name == f.name
    ensures !Database.HasUser(st.users, session.id) ==> r.store == st
    ensures r.session == WithForm(session, f)
    ensures r.store == st.(users := r.store.users)
    ensures forall i :: Database.FirstUser(st.users, session.id, i) ==> r.store.users[i] == WithForm(st.users[i], f)
    ensures forall i, k :: Database.FirstUser(st.users, session.id, i) && 0 <= k < |st.users| && k != i ==>
      r.store.users[k] == st.users[k]
  {
    var p := SavePatch(f);
    MergeIsWithForm(session, f);
    var r := Saved(MergeUser(session, p), Database.UpdateUser(st, session.id, p).store);
    SaveStored(st, session.id, f);
    r
  }

  /** The stored record of the signed-in user takes the form; nothing else in
      the store changes. */
  lemma {:induction false} SaveStored(st: Database.Store, id: string, f: ProfileForm)
    ensures var after := Database.UpdateUser(st, id, SavePatch(f)).store;
      && |after.users| == |st.users|
      && after == st.(users := after.users)
      && forall i :: Database.FirstUser(st.users, id, i) ==> after.users == st.users[i := WithForm(st.users[i], f)]
  {
    forall i | Database.FirstUser(st.users, id, i)
      ensures Database.UpdateUser(st, id, SavePatch(f)).store.users == st.users[i := WithForm(st.users[i], f)]
    {
      MergeIsWithForm(st.users[i], f);
    }
  }

  /** Saving a profile never makes two users share an email. */
  lemma {:induction false} SaveKeepsEmailsUnique(st: Database.Store, session: User, f: ProfileForm)
    requires Database.EmailsUnique(st.users)
    ensures Database.EmailsUnique(Save(st, session, f).store.users)
  {
    Database.UpdateWithoutEmailKeepsEmailsUnique(st, session.id, SavePatch(f));
  }

  /** Saving the form without edits gives the user back unchanged, provided
      the lists are well formed and the level is set. */
  lemma {:induction false} UneditedSaveKeepsProfile(u: User)
    requires Text.WellFormedList(u.skills) && Text.WellFormedList(u.interests)
    requires u.experienceLevel != ""
    ensures MergeUser(u, SavePatch(InitialProfileForm(Some(u)))) == u
  {
    Text.ParseJoin(u.skills.value);
    Text.ParseJoin(u.interests.value);
  }

  /** `handleCancel`: whatever was typed, the form goes back to the user's values. */
  function Cancel(edited: ProfileForm, user: Option<User>): (f: ProfileForm)
    ensures user.Some? ==>
      && f.name == user.value.name && f.bio == user.value.bio
      && f.skills == Text.ListText(user.value.skills) && f.interests == Text.ListText(user.value.interests)
    ensures user.Some? ==>
      f.experienceLevel == (if user.value.experienceLevel == "" then DefaultLevel else user.value.experienceLevel)
    ensures user.None? ==> f.name == "" && f.bio == "" && f.skills == "" && f.interests == ""
    ensures user.None? ==> f.experienceLevel == DefaultLevel
  {
    InitialProfileForm(user)
  }

  /** Editing, cancelling and then saving writes the user back unchanged. */
  lemma {:induction false} CancelThenSaveKeepsProfile(u: User, edited: ProfileForm)
    requires Text.WellFormedList(u.skills) && Text.WellFormedList(u.interests)
    requires u.experienceLevel != ""
    ensures MergeUser(u, SavePatch(Cancel(edited, Some(u)))) == u
  {
    UneditedSaveKeepsProfile(u);
  }
}
