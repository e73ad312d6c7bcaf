/**
 * The navigation menu: a constant list of links, each possibly restricted to
 * administrators, to Pro users, or to users without Pro, filtered by the
 * viewer's two flags.
 */
module Navbar {
  /** An entry of `NAV_LINKS`; a missing flag is `false`. */
  datatype NavLink = NavLink(to: string, caption: string, adminOnly: bool, proOnly: bool, proHide: bool)

  /** A link with none of the three flags. */
  function Plain(to: string, caption: string): NavLink
  {
    NavLink(to, caption, false, false, false)
  }

  /** `NAV_LINKS`, in menu order. */
  const NavLinks: seq<NavLink> := [
    Plain("/", "🏠 홈"),
    Plain("/lectures/all", "📚 전체 강의"),
    Plain("/lectures/manage", "🗺️ 강의 관리"),
    Plain("/attendance/logs", "📝 내 출석 기록"),
    Plain("/account/edit", "👤 계정 관리"),
    NavLink("/brute-attend-options", "🛠️ Pro 출석 관리", false, true, false),
    NavLink("/pro-ad", "🚀 About SuperPlato Pro", false, false, true),
    NavLink("/assignment/review", "🧑‍💻 과제 검수", false, true, false),
    NavLink("/admin/dashboard", "🛡️ 관리자 대시보드", true, false, false)
  ]

  /** The filter condition of the menu. */
  predicate Visible(link: NavLink, isAdmin: bool, isPro: bool)
  {
    (!link.adminOnly || isAdmin) && (!link.proOnly || isPro) && (!link.proHide || !isPro)
  }

  /** `links.filter(...)`: the visible links. */
  function Shown(links: seq<NavLink>, isAdmin: bool, isPro: bool): (r: seq<NavLink>)
    ensures |r| <= |links|
    ensures forall l :: l in r <==> l in links && Visible(l, isAdmin, isPro)
  {
    if links == [] then []
    else (if Visible(links[0], isAdmin, isPro) then [links[0]] else []) + Shown(links[1..], isAdmin, isPro)
  }

  /** Filtering a concatenation filters each part: shown links keep their relative order. */
  lemma {:induction false} ShownAppend(a: seq<NavLink>, b: seq<NavLink>, isAdmin: bool, isPro: bool)
    ensures Shown(a + b, isAdmin, isPro) == Shown(a, isAdmin, isPro) + Shown(b, isAdmin, isPro)
    decreases |a|
  {
    if a != [] {
      assert (a + b)[0] == a[0];
      assert (a + b)[1..] == a[1..] + b;
      ShownAppend(a[1..], b, isAdmin, isPro);
    } else {
      assert a + b == b;
    }
  }

  /**
   * Pro users never see a `proHide` link, other users never see a `proOnly`
   * link, only administrators see an `adminOnly` link, and a link without
   * flags is always shown.
   */
  lemma ShownFlags(links: seq<NavLink>, isAdmin: bool, isPro: bool)
    ensures isPro ==> forall l :: l in Shown(links, isAdmin, isPro) ==> !l.proHide
    ensures !isPro ==> forall l :: l in Shown(links, isAdmin, isPro) ==> !l.proOnly
    ensures !isAdmin ==> forall l :: l in Shown(links, isAdmin, isPro) ==> !l.adminOnly
    ensures forall l :: l in links && !l.adminOnly && !l.proOnly && !l.proHide ==> l in Shown(links, isAdmin, isPro)
  {
  }
}
