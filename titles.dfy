/**
  * The two path-to-title conversions: formatPathToTitle of src/lib/utils.ts
  * (everything after the leading character) and getTitle of
  * src/components/layout/PageTitle.tsx (only the last path segment, with
  * "Dashboard" as fallback). Both turn hyphen-separated words into
  * space-separated, capitalised words.
  */
module Titles {
  import Text

  /** `path.slice(1)` */
  function DropFirst(path: string): (r: string)
    ensures path != [] ==> r == path[1..]
    ensures path == [] ==> r == []
  {
    if path == [] then [] else path[1..]
  }

  /** formatPathToTitle */
  function FormatPathToTitle(path: string): (r: string)
    ensures path == "/" ==> r == "Dashboard"
    ensures path != "/" ==> r == Text.TitleChars(DropFirst(path), true)
  {
    if path == "/" then "Dashboard"
    else
      Text.HyphenWordsToTitleChars(DropFirst(path));
      Text.HyphenWordsToTitle(DropFirst(path))
  }

  /**
    * Outside "/", the title has one character per character after the
    * first, a space exactly where the path had a hyphen or a space, and an
    * upper-cased first letter in every word.
    */
  lemma FormatPathToTitleShape(path: string)
    requires path != "/" && path != []
    ensures var r := FormatPathToTitle(path);
      && |r| == |path| - 1
      && (forall i :: 0 <= i < |r| ==> (r[i] == ' ' <==> path[i + 1] == '-' || path[i + 1] == ' '))
      && (forall i :: 1 <= i < |r| && path[i] == '-' && path[i + 1] != '-' ==> r[i] == Text.UpperChar(path[i + 1]))
      && (|r| > 0 && path[1] != '-' ==> r[0] == Text.UpperChar(path[1]))
  {
    var s := path[1..];
    var r := FormatPathToTitle(path);
    forall i | 0 <= i < |r|
      ensures r[i] == ' ' <==> path[i + 1] == '-' || path[i + 1] == ' '
    {
      assert r[i] == Text.TitleCharAt(s, i, true);
      assert s[i] == path[i + 1];
    }
  }

  /** getTitle */
  function GetTitle(path: string): (r: string)
    ensures path == "/" ==> r == "Dashboard"
    ensures path != "/" && Text.LastPiece(path, '/') == "" ==> r == "Dashboard"
    ensures path != "/" && Text.LastPiece(path, '/') != "" ==> r == Text.TitleChars(Text.LastPiece(path, '/'), true)
  {
    if path == "/" then "Dashboard"
    else
      var last := Text.LastPiece(path, '/');
      Text.HyphenWordsToTitleChars(last);
      var title := Text.HyphenWordsToTitle(last);
      if title == "" then "Dashboard" else title
  }

  /** Only the last segment counts: any prefix before the last '/' gives the same title. */
  lemma GetTitleUsesLastSegment(prefix: string, segment: string)
    requires '/' !in segment
    ensures GetTitle(prefix + "/" + segment) == GetTitle("/" + segment)
  {
    Text.LastPieceOfAppend(prefix, segment, '/');
    Text.LastPieceOfAppend([], segment, '/');
    assert [] + ['/'] + segment == "/" + segment;
  }

  /** A trailing slash leaves an empty last segment, so the title falls back to "Dashboard". */
  lemma TrailingSlashIsDashboard(prefix: string)
    ensures GetTitle(prefix + "/") == "Dashboard"
  {
    Text.LastPieceOfAppend(prefix, [], '/');
    assert prefix + ['/'] + [] == prefix + "/";
  }

  /** For a single-segment path the two conversions agree, except that getTitle never returns "". */
  lemma ConversionsAgreeOnOneSegment(segment: string)
    requires '/' !in segment && segment != []
    ensures GetTitle("/" + segment) == FormatPathToTitle("/" + segment)
  {
    Text.LastPieceOfAppend([], segment, '/');
    assert [] + ['/'] + segment == "/" + segment;
    assert DropFirst("/" + segment) == segment;
  }

  /** The examples of src/__tests__/components/layout/PageTitle.test.tsx:7-28. */
  lemma PageTitleExamples()
    ensures GetTitle("/") == "Dashboard"
    ensures GetTitle("/dashboard") == "Dashboard"
    ensures GetTitle("/user-management") == "User Management"
    ensures GetTitle("/user-role-management") == "User Role Management"
  {
    PageTitleDashboard();
    PageTitleUserManagement();
    PageTitleUserRoleManagement();
  }

  lemma PageTitleDashboard()
    ensures GetTitle("/dashboard") == "Dashboard"
  {
    FormatDashboard();
    ExampleSegments();
    ConversionsAgreeOnOneSegment("dashboard");
  }

  lemma PageTitleUserManagement()
    ensures GetTitle("/user-management") == "User Management"
  {
    FormatUserManagement();
    ExampleSegments();
    ConversionsAgreeOnOneSegment("user-management");
  }

  lemma PageTitleUserRoleManagement()
    ensures GetTitle("/user-role-management") == "User Role Management"
  {
    FormatUserRoleManagement();
    ExampleSegments();
    ConversionsAgreeOnOneSegment("user-role-management");
  }

  /** formatPathToTitle on the same paths. */
  lemma FormatDashboard()
    ensures FormatPathToTitle("/dashboard") == "Dashboard"
  {
    ExamplePaths();
    ExampleWords();
    ExampleTitles();
    TitleOfOneWord("dashboard");
  }

  lemma FormatUserManagement()
    ensures FormatPathToTitle("/user-management") == "User Management"
  {
    ExamplePaths();
    ExampleWords();
    ExampleTitles();
    TitleOfOneWord("management");
    TitleOfFirstWord("user", "management");
  }

  lemma FormatUserRoleManagement()
    ensures FormatPathToTitle("/user-role-management") == "User Role Management"
  {
    ExamplePaths();
    ExampleWords();
    ExampleTitles();
    RoleManagementTitle();
    TitleOfFirstWord("user", "role-management");
  }

  lemma RoleManagementTitle()
    ensures Text.HyphenWordsToTitle("role-management") == "Role Management"
  {
    ExamplePaths();
    ExampleWords();
    ExampleTitles();
    TitleOfOneWord("management");
    TitleOfFirstWord("role", "management");
  }

  /** The example paths taken apart into their words. */
  lemma ExamplePaths()
    ensures DropFirst("/dashboard") == "dashboard"
    ensures DropFirst("/user-management") == "user" + "-" + "management"
    ensures DropFirst("/user-role-management") == "user" + "-" + "role-management"
    ensures "role-management" == "role" + "-" + "management"
  {
    ExampleSegments();
    DropRoot("dashboard");
    DropRoot("user-management");
    DropRoot("user-role-management");
    UserManagementWords();
    UserRoleManagementWords();
    RoleManagementWords();
  }

  /** Dropping the leading "/" of a root-relative path leaves the rest. */
  lemma DropRoot(w: string)
    ensures DropFirst("/" + w) == w
  {
    assert ("/" + w)[1..] == w;
  }

  lemma UserManagementWords()
    ensures "user-management" == "user" + "-" + "management"
  {
  }

  lemma UserRoleManagementWords()
    ensures "user-role-management" == "user" + "-" + "role-management"
  {
  }

  lemma RoleManagementWords()
    ensures "role-management" == "role" + "-" + "management"
  {
  }

  /** The example paths are one segment after the root. */
  lemma ExampleSegments()
    ensures "/dashboard" == "/" + "dashboard" && '/' !in "dashboard"
    ensures "/user-management" == "/" + "user-management" && '/' !in "user-management"
    ensures "/user-role-management" == "/" + "user-role-management" && '/' !in "user-role-management"
  {
    DashboardSegment();
    UserManagementSegment();
    UserRoleManagementSegment();
  }

  lemma DashboardSegment()
    ensures "/dashboard" == "/" + "dashboard" && '/' !in "dashboard"
  {
  }

  lemma UserManagementSegment()
    ensures "/user-management" == "/" + "user-management" && '/' !in "user-management"
  {
  }

  lemma UserRoleManagementSegment()
    ensures "/user-role-management" == "/" + "user-role-management" && '/' !in "user-role-management"
  {
  }

  /** The example words capitalised. */
  lemma ExampleWords()
    ensures Text.Capitalize("dashboard") == "Dashboard"
    ensures Text.Capitalize("user") == "User"
    ensures Text.Capitalize("role") == "Role"
    ensures Text.Capitalize("management") == "Management"
  {
  }

  /** The example titles put together from their words. */
  lemma ExampleTitles()
    ensures "User" + " " + "Management" == "User Management"
    ensures "Role" + " " + "Management" == "Role Management"
    ensures "User" + " " + "Role Management" == "User Role Management"
  {
  }

  /** A single word is just capitalised. */
  lemma TitleOfOneWord(w: string)
    requires '-' !in w
    ensures Text.HyphenWordsToTitle(w) == Text.Capitalize(w)
  {
    Text.SplitNoSeparator(w, '-');
  }

  /** The first word is capitalised and followed by a space and the title of the rest. */
  lemma TitleOfFirstWord(w: string, rest: string)
    requires '-' !in w
    ensures Text.HyphenWordsToTitle(w + "-" + rest) == Text.Capitalize(w) + " " + Text.HyphenWordsToTitle(rest)
  {
    Text.SplitAppend(w, rest, '-');
    Text.SplitNoSeparator(w, '-');
    assert w + ['-'] + rest == w + "-" + rest;
    var ws := Text.Split(rest, '-');
    assert Text.Split(w + "-" + rest, '-') == [w] + ws;
    assert ([w] + ws)[1..] == ws;
    var caps := Text.CapitalizeAll(ws);
    assert Text.CapitalizeAll([w] + ws) == [Text.Capitalize(w)] + caps;
    assert ([Text.Capitalize(w)] + caps)[1..] == caps;
  }
}
