/**
 * The display helpers of the top navigation bar: the initials of the avatar,
 * the navigation entries and which of them is highlighted, and the theme toggle.
 */
module TopNav {
  import opened Wrappers
  import opened Text
  import opened Schema

  /** `part.charAt(0)`: the first character, or nothing for an empty part. */
  function Head(part: string): (h: string)
    ensures |h| <= 1
    ensures part != "" ==> h == [part[0]]
    ensures part == "" ==> h == ""
  {
    if part == "" then "" else [part[0]]
  }

  /** `parts.map(part => part.charAt(0)).join('')`. */
  function FirstChars(parts: seq<string>): string {
    if |parts| == 0 then "" else Head(parts[0]) + FirstChars(parts[1..])
  }

  /** `s.slice(0, n)` for a non-negative `n`. */
  function Take(s: string, n: nat): (r: string)
    ensures |r| <= n && |r| <= |s|
    ensures r == s[..|r|]
    ensures |s| >= n ==> |r| == n
    ensures |s| < n ==> r == s
  {
    if |s| <= n then s else s[..n]
  }

  /** `getInitials`: the upper-cased first characters of the space-separated parts, at most two. */
  function GetInitials(name: string): (r: string)
    ensures |r| <= 2
  {
    Take(Upper(FirstChars(Split(name, ' '))), 2)
  }

  /**
   * The characters that begin a word: not a space, and first in the string or
   * right after a space. `afterSpace` says whether the character before `s` was a
   * space (or there was none).
   */
  function WordStarts(s: string, afterSpace: bool): string {
    if |s| == 0 then ""
    else (if afterSpace && s[0] != ' ' then [s[0]] else "") + WordStarts(s[1..], s[0] == ' ')
  }

  /** Splitting on spaces and taking each part's first character picks exactly the word starts. */
  lemma {:induction false} FirstCharsAreWordStarts(s: string)
    ensures FirstChars(Split(s, ' ')) == WordStarts(s, true)
    ensures FirstChars(Split(s, ' ')[1..]) == WordStarts(s, false)
    decreases |s|
  {
    if |s| > 0 {
      var rest := Split(s[1..], ' ');
      FirstCharsAreWordStarts(s[1..]);
      if s[0] == ' ' {
        assert Split(s, ' ') == [""] + rest;
        assert Split(s, ' ')[1..] == rest;
      } else {
        var parts := Split(s, ' ');
        assert parts == [[s[0]] + rest[0]] + rest[1..];
        assert parts[1..] == rest[1..];
        assert FirstChars(parts) == [s[0]] + FirstChars(rest[1..]);
      }
    }
  }

  /** The initials are the first two word starts, upper-cased. */
  lemma InitialsAreWordStarts(name: string)
    ensures GetInitials(name) == Take(Upper(WordStarts(name, true)), 2)
  {
    FirstCharsAreWordStarts(name);
  }

  /** A name of two words gives the upper-cased first letters of both. */
  lemma TwoWordInitials(first: string, last: string)
    requires first != "" && last != "" && ' ' !in first && ' ' !in last
    ensures GetInitials(first + " " + last) == [UpperChar(first[0]), UpperChar(last[0])]
  {
    SplitAtFirstSeparator(first, ' ', last);
    SplitWithoutSeparator(last, ' ');
    assert first + [' '] + last == first + " " + last;
    var parts := Split(first + " " + last, ' ');
    assert parts == [first, last];
    assert parts[1..] == [last];
    assert FirstChars([last]) == [last[0]];
    assert FirstChars(parts) == [first[0], last[0]];
  }

  /** What the avatar shows when its image is missing: the initials of the username, or "U" without one. */
  function AvatarFallback(user: Option<User>): (r: string)
    ensures user.None? || user.value.username == "" ==> r == "U"
    ensures user.Some? && user.value.username != "" ==> r == GetInitials(user.value.username)
    ensures |r| <= 2
  {
    if user.Some? && user.value.username != "" then GetInitials(user.value.username) else "U"
  }

  /** A username made only of spaces leaves the avatar with no initials at all. */
  lemma BlankUsernameHasNoInitials(n: nat)
    ensures AvatarFallback(Some(User(1, seq(n + 1, _ => ' '), "", None, None, None))) == ""
  {
    var s := seq(n + 1, _ => ' ');
    FirstCharsAreWordStarts(s);
    SpacesHaveNoWordStarts(s, true);
  }

  lemma {:induction false} SpacesHaveNoWordStarts(s: string, afterSpace: bool)
    requires forall i :: 0 <= i < |s| ==> s[i] == ' '
    ensures WordStarts(s, afterSpace) == ""
    decreases |s|
  {
    if |s| > 0 {
      SpacesHaveNoWordStarts(s[1..], true);
    }
  }

  // ---------------------------------------------------------------------------
  // Navigation and theme

  datatype NavItem = NavItem(name: string, href: string)

  const NavItems: seq<NavItem> := [
    NavItem("Dashboard", "/"),
    NavItem("Products", "/products"),
    NavItem("Add Product", "/products/add"),
    NavItem("Profile", "/profile")
  ]

  /** An entry is highlighted when the location is exactly its link. */
  predicate IsActive(location: string, item: NavItem) {
    location == item.href
  }

  /** `navItems.map(...)`: for each entry in order, whether it is highlighted at `location`. */
  function Highlights(location: string): (h: seq<bool>)
    ensures |h| == |NavItems|
    ensures forall i :: 0 <= i < |h| ==> (h[i] <==> IsActive(location, NavItems[i]))
  {
    seq(|NavItems|, i requires 0 <= i < |NavItems| => IsActive(location, NavItems[i]))
  }

  /** At most one entry is highlighted, since no two entries share a link. */
  lemma AtMostOneHighlighted(location: string, i: nat, j: nat)
    requires i < |NavItems| && j < |NavItems|
    requires Highlights(location)[i] && Highlights(location)[j]
    ensures i == j
  {
  }

  /** The entry for a listed link is highlighted there. */
  lemma OwnEntryHighlighted(i: nat)
    requires i < |NavItems|
    ensures Highlights(NavItems[i].href)[i]
  {
  }

  /** `toggleTheme`: dark becomes light, anything else becomes dark. */
  function ToggleTheme(theme: string): (r: string)
    ensures r == "light" || r == "dark"
    ensures r != theme || (theme != "light" && theme != "dark")
  {
    if theme == "dark" then "light" else "dark"
  }

  /** On the two themes the toggle undoes itself. */
  lemma ToggleTwice(theme: string)
    requires theme == "light" || theme == "dark"
    ensures ToggleTheme(ToggleTheme(theme)) == theme
  {
  }
}
