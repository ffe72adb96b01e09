/**
 * `App`: which form is showing and who is signed in. The auth-state
 * subscription and `signOut` are remote; what is modelled is what the
 * callback and the logout handler do to the state.
 */
module AppShell {
  import opened Names

  /** The forms `view` selects: 'login', 'register', 'recovery', 'reset-password'. */
  datatype View = Login | Register | Recovery | ResetPassword

  /** What is rendered: the dashboard for a signed-in user, otherwise the selected form. */
  datatype Screen = Dashboard(user: User) | Form(view: View)

  /** The event name the auth subscription reports when a recovery link is opened. */
  const PasswordRecoveryEvent := "PASSWORD_RECOVERY"

  class App {
    var view: View
    var user: Option<User>

    constructor ()
      ensures view == Login && user == None
    {
      view, user := Login, None;
    }

    /** The rendered screen: `user ? <Dashboard/> : <the form for view>`. */
    function Shown(): (s: Screen)
      reads this
      ensures s.Dashboard? <==> user.Some?
      ensures s.Dashboard? ==> s.user == user.value
      ensures s.Form? ==> s.view == view
    {
      if user.Some? then Dashboard(user.value) else Form(view)
    }

    /** The auth callback: a recovery event opens the reset form and nothing else changes. */
    method OnAuthStateChange(event: string)
      modifies this
      ensures user == old(user)
      ensures view == if event == PasswordRecoveryEvent then ResetPassword else old(view)
    {
      if event == PasswordRecoveryEvent {
        view := ResetPassword;
      }
    }

    /** `handleLogout`, once `signOut` has returned: no user, and the login form. */
    method Logout()
      modifies this
      ensures user == None && view == Login
      ensures Shown() == Form(Login)
    {
      user := None;
      view := Login;
    }

    /** `setView`, passed to the forms for their navigation links. */
    method SetView(v: View)
      modifies this
      ensures view == v && user == old(user)
    {
      view := v;
    }

    /** `onLogin` (`setUser`), called by the login and registration forms. */
    method SignIn(u: User)
      modifies this
      ensures user == Some(u) && view == old(view)
      ensures Shown() == Dashboard(u)
    {
      user := Some(u);
    }
  }
}
