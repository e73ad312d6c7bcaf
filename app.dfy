/**
 * The client's root component: on start it classifies the session from the
 * stored jwt and the `/me` answer into none, onboarding or ready, and hands
 * the router four flags derived from that.
 */
module App {
  import opened Common
  import opened Models
  import AuthRouter
  import ClientAuth
  import AppRouter

  /** `userStatus` once the effect has run: `'none'`, `'onboarding'` or `'ready'`. */
  datatype Status = NoSession | Onboarding | Ready

  /** The three state cells the effect sets. */
  datatype Session = Session(status: Status, isAdmin: bool, isPro: bool)

  /** The session of someone who is not logged in. */
  const SignedOut := Session(NoSession, false, false)

  /**
   * The effect: without a jwt no request is made; a missing or failed `/me`
   * answer means no session; an answer without a student id or a stored
   * password means onboarding; otherwise the session is ready. The flags come
   * from the answer whenever there is one.
   */
  function Classify(jwt: Option<string>, me: ClientAuth.Fetched<AuthRouter.Me>): Session
  {
    if !Truthy(jwt) then SignedOut
    else match me
      case Threw => SignedOut
      case Returned(None) => SignedOut
      case Returned(Some(m)) =>
        if !Truthy(m.studentId) || !m.studentPassword then Session(Onboarding, m.isAdmin, m.isPro)
        else Session(Ready, m.isAdmin, m.isPro)
  }

  /**
   * Without a jwt the outcome does not depend on the server at all; with one,
   * only an answer gives flags, and it is ready exactly when it has a student
   * id and a stored password.
   */
  lemma ClassifyMeaning(jwt: Option<string>, me: ClientAuth.Fetched<AuthRouter.Me>, other: ClientAuth.Fetched<AuthRouter.Me>)
    ensures !Truthy(jwt) ==> Classify(jwt, me) == SignedOut == Classify(jwt, other)
    ensures Classify(jwt, me).status == NoSession <==> !Truthy(jwt) || me.Threw? || me.json.None?
    ensures Classify(jwt, me).status == NoSession ==> Classify(jwt, me) == SignedOut
    ensures Classify(jwt, me).status != NoSession ==>
              var m := me.json.value;
              Classify(jwt, me).isAdmin == m.isAdmin && Classify(jwt, me).isPro == m.isPro
              && (Classify(jwt, me).status == Ready <==> Truthy(m.studentId) && m.studentPassword)
  {
  }

  /**
   * Against the server's `whoami`: a user is ready on the client exactly when
   * a student id and a password are stored. Every profile the server calls
   * complete is ready; a ready one that the server does not call complete has
   * an empty name.
   */
  lemma ReadyForWhoami(jwt: string, u: User)
    requires jwt != ""
    ensures var s := Classify(Some(jwt), ClientAuth.Returned(Some(AuthRouter.Whoami(u))));
      (s.status == Ready <==> Truthy(u.studentId) && u.passwordEnc.Some?)
      && (AuthRouter.Whoami(u).profileComplete ==> s.status == Ready)
      && (s.status == Ready && !AuthRouter.Whoami(u).profileComplete ==> u.name == "")
      && s.isAdmin == u.isAdmin && s.isPro == u.isPro
  {
  }

  /** The props `App` passes: logged in only when ready, onboarding only when onboarding. */
  function PropsOf(s: Session): (p: AppRouter.Props)
    ensures p.isLoggedIn.Some? && p.onboarding.Some? && p.isAdmin.Some? && p.isPro.Some?
    ensures !(p.isLoggedIn.value && p.onboarding.value)
  {
    AppRouter.Props(Some(s.status == Ready), Some(s.status == Onboarding), Some(s.isAdmin), Some(s.isPro))
  }

  /** The route flags are the session's: a member is a ready session, and the flags pass through. */
  lemma PropsMeaning(s: Session)
    ensures var p := PropsOf(s);
      (p.isLoggedIn.value <==> s.status == Ready) && (p.onboarding.value <==> s.status == Onboarding)
      && p.isAdmin.value == s.isAdmin && p.isPro.value == s.isPro
    ensures forall path, renderedPath :: AppRouter.View(PropsOf(s), path, renderedPath).Some?
  {
  }

  /** The component's state: `userStatus` is `undefined` until the effect has run. */
  class AppState {
    var userStatus: Option<Status>
    var isAdmin: bool
    var isPro: bool

    /** `useState(undefined)`, `useState(false)`, `useState(false)`. */
    constructor ()
      ensures userStatus == None && !isAdmin && !isPro
    {
      userStatus := None;
      isAdmin := false;
      isPro := false;
    }

    /** The mount effect: reads the jwt and sets the three cells from the `/me` answer. */
    method RunEffect(jwt: Option<string>, me: ClientAuth.Fetched<AuthRouter.Me>)
      modifies this
      ensures userStatus == Some(Classify(jwt, me).status)
      ensures isAdmin == Classify(jwt, me).isAdmin && isPro == Classify(jwt, me).isPro
    {
      if !Truthy(jwt) {
        userStatus, isAdmin, isPro := Some(NoSession), false, false;
        return;
      }
      match me {
        case Threw =>
          userStatus, isAdmin, isPro := Some(NoSession), false, false;
        case Returned(None) =>
          userStatus, isAdmin, isPro := Some(NoSession), false, false;
        case Returned(Some(m)) =>
          if !Truthy(m.studentId) || !m.studentPassword {
            userStatus := Some(Onboarding);
          } else {
            userStatus := Some(Ready);
          }
          isAdmin, isPro := m.isAdmin, m.isPro;
      }
    }

    /** What `App` renders: nothing while loading, else the router with the session's props. */
    function Rendered(): (r: Option<AppRouter.Props>)
      reads this
      ensures r.None? <==> userStatus.None?
      ensures r.Some? ==> r.value == PropsOf(Session(userStatus.value, isAdmin, isPro))
    {
      if userStatus.None? then None else Some(PropsOf(Session(userStatus.value, isAdmin, isPro)))
    }
  }
}
