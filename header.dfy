/** The page header: avatar initials, the navigation links, the active-link
    test and which controls are offered (src/components/common/Header.tsx). */
module Header {
  import opened Wrappers
  import opened Seqs
  import opened Text
  import opened Types
  import opened Routes

  // ---------------------------------------------------------------------
  // Initials
  // ---------------------------------------------------------------------

  /** `s.split(sep)` for a one-character separator: consecutive separators
      give empty pieces, and the empty string gives one empty piece. */
  function SplitOn(s: string, sep: char): (parts: seq<string>)
    ensures |parts| >= 1
  {
    if s == [] then [[]]
    else if s[0] == sep then [[]] + SplitOn(s[1..], sep)
    else
      var rest := SplitOn(s[1..], sep);
      [[s[0]] + rest[0]] + rest[1..]
  }

  /** `.map((n) => n[0]).join('')`: the first character of every piece; an
      empty piece yields `undefined`, which `join` renders as nothing. */
  function FirstChars(parts: seq<string>): string {
    if parts == [] then []
    else (if parts[0] == [] then [] else [parts[0][0]]) + FirstChars(parts[1..])
  }

  /** The characters that begin a space-separated word of `s`: a non-space
      character at the start (when `atStart`) or right after a space. */
  function WordInitials(s: string, atStart: bool): string {
    if s == [] then []
    else (if s[0] != ' ' && atStart then [s[0]] else []) + WordInitials(s[1..], s[0] == ' ')
  }

  lemma {:induction false} FirstCharsOfSplit(s: string)
    ensures FirstChars(SplitOn(s, ' ')) == WordInitials(s, true)
    ensures FirstChars(SplitOn(s, ' ')[1..]) == WordInitials(s, false)
  {
    if s != [] {
      FirstCharsOfSplit(s[1..]);
      var rest := SplitOn(s[1..], ' ');
      if s[0] == ' ' {
        assert SplitOn(s, ' ') == [[]] + rest;
        assert SplitOn(s, ' ')[1..] == rest;
      } else {
        var parts := SplitOn(s, ' ');
        assert parts == [[s[0]] + rest[0]] + rest[1..];
        assert parts[1..] == rest[1..];
        assert FirstChars(parts) == [s[0]] + FirstChars(rest[1..]);
      }
    }
  }

  /** `getUserInitials`. */
  function UserInitials(profile: Option<Profile>): (r: string)
    ensures |r| <= 2
  {
    if profile.Some? && profile.value.full_name.Some? && profile.value.full_name.value != [] then
      Take(ToUpper(FirstChars(SplitOn(profile.value.full_name.value, ' '))), 2)
    else if profile.Some? && profile.value.username != [] then
      ToUpper(Take(profile.value.username, 2))
    else
      "U"
  }

  /** With a non-empty full name, the initials are the upper-cased first
      characters of its words, first two only; a name of spaces only gives
      the empty string rather than a fallback. */
  lemma InitialsOfFullName(profile: Option<Profile>)
    requires profile.Some? && profile.value.full_name.Some? && profile.value.full_name.value != []
    ensures UserInitials(profile) == Take(ToUpper(WordInitials(profile.value.full_name.value, true)), 2)
    ensures (forall i :: 0 <= i < |profile.value.full_name.value| ==> profile.value.full_name.value[i] == ' ')
      ==> UserInitials(profile) == []
  {
    var name := profile.value.full_name.value;
    FirstCharsOfSplit(name);
    if forall i :: 0 <= i < |name| ==> name[i] == ' ' {
      NoInitialsInSpaces(name, true);
    }
  }

  lemma {:induction false} NoInitialsInSpaces(s: string, atStart: bool)
    requires forall i :: 0 <= i < |s| ==> s[i] == ' '
    ensures WordInitials(s, atStart) == []
  {
    if s != [] {
      NoInitialsInSpaces(s[1..], true);
    }
  }

  /** Without a full name, the initials are the first two characters of the
      username, upper-cased. */
  lemma InitialsOfUsername(profile: Option<Profile>)
    requires profile.Some? && (profile.value.full_name.None? || profile.value.full_name.value == [])
    requires profile.value.username != []
    ensures UserInitials(profile) == ToUpper(Take(profile.value.username, 2))
    ensures |UserInitials(profile)| == if |profile.value.username| < 2 then |profile.value.username| else 2
  {
  }

  /** With neither a full name nor a username, the initials are `"U"`. */
  lemma InitialsFallback(profile: Option<Profile>)
    requires profile.None? || ((profile.value.full_name.None? || profile.value.full_name.value == [])
                               && profile.value.username == [])
    ensures UserInitials(profile) == "U"
  {
  }

  // ---------------------------------------------------------------------
  // Navigation
  // ---------------------------------------------------------------------

  function IsVisible(route: RouteConfig): bool {
    route.visible
  }

  /** `routes.filter((route) => route.visible)`. */
  function Navigation(routes: seq<RouteConfig>): (nav: seq<RouteConfig>)
    ensures forall i :: 0 <= i < |nav| ==> nav[i].visible && nav[i] in routes
    ensures forall i :: 0 <= i < |routes| && routes[i].visible ==> routes[i] in nav
  {
    FilterComplete(routes, IsVisible);
    Filter(routes, IsVisible)
  }

  /** The header links to Home, Explore and Categories, in table order. */
  lemma NavigationOfAppRoutes()
    ensures Navigation(AppRoutes) == AppRoutes[..3]
  {
    var r := AppRoutes;
    var front, back := r[..3], r[3..];
    forall i | 0 <= i < |front| ensures IsVisible(front[i]) {
      assert front[i] == r[i];
    }
    forall i | 0 <= i < |back| ensures !IsVisible(back[i]) {
      assert back[i] == r[3 + i];
    }
    FilterKeepsAll(front, IsVisible);
    FilterRejectsAll(back, IsVisible);
    assert r == front + back;
    FilterAppend(front, back, IsVisible);
  }

  /** `location.pathname === item.path`. */
  predicate IsActive(pathname: string, item: RouteConfig) {
    pathname == item.path
  }

  function PathOf(route: RouteConfig): string {
    route.path
  }

  ghost predicate DistinctPaths(routes: seq<RouteConfig>) {
    forall i, j :: 0 <= i < j < |routes| ==> routes[i].path != routes[j].path
  }

  /** Over a route table whose paths are distinct, at most one navigation
      link is highlighted for any location. */
  lemma AtMostOneActive(routes: seq<RouteConfig>, pathname: string)
    requires DistinctPaths(routes)
    ensures forall i, j :: 0 <= i < j < |Navigation(routes)| ==>
      !(IsActive(pathname, Navigation(routes)[i]) && IsActive(pathname, Navigation(routes)[j]))
  {
    assert forall i, j :: 0 <= i < j < |routes| ==> PathOf(routes[i]) != PathOf(routes[j]);
    FilterKeepsDistinct(routes, IsVisible, PathOf);
  }

  /** The application's route table has distinct paths. */
  lemma AppRoutesDistinctPaths()
    ensures DistinctPaths(AppRoutes)
  {
    var r := AppRoutes;
    assert r[0].path == "/" && r[1].path == "/explore" && r[2].path == "/categories";
    assert r[3].path == "/login" && r[4].path == "*";
    assert r[0].path[0] == '/' && r[4].path[0] == '*';
  }

  // ---------------------------------------------------------------------
  // Controls
  // ---------------------------------------------------------------------

  datatype Control =
    | SearchButton | ThemeToggle | Write | Analytics | Bookmarks | ProfileLink
    | Settings | SignOut | SignIn | GetStarted

  /** The buttons of the desktop bar. */
  function BarControls(user: Option<Id>, profile: Option<Profile>): set<Control> {
    {SearchButton, ThemeToggle} +
    if user.Some? && profile.Some? then
      (if IsCreatorRole(profile.value.role) then {Write, Analytics} else {}) + {Bookmarks, ProfileLink, SignOut}
    else
      {SignIn, GetStarted}
  }

  /** The buttons of the mobile menu (its navigation links aside). */
  function MenuControls(user: Option<Id>, profile: Option<Profile>): set<Control> {
    if user.Some? && profile.Some? then
      (if IsCreatorRole(profile.value.role) then {Write, Analytics} else {})
        + {SearchButton, Bookmarks, ProfileLink, Settings, SignOut}
    else
      {SignIn, GetStarted}
  }

  /** Write and Analytics are offered, in the bar and in the menu, exactly
      when the signed-in profile is a creator or an admin; signed-out
      visitors are offered sign-in instead. */
  lemma CreatorControlsGate(user: Option<Id>, profile: Option<Profile>)
    ensures Write in BarControls(user, profile) <==> HasCreatorAccess(user, profile)
    ensures Analytics in BarControls(user, profile) <==> HasCreatorAccess(user, profile)
    ensures Write in MenuControls(user, profile) <==> HasCreatorAccess(user, profile)
    ensures Analytics in MenuControls(user, profile) <==> HasCreatorAccess(user, profile)
    ensures SignIn in BarControls(user, profile) <==> !(user.Some? && profile.Some?)
  {
  }
}
