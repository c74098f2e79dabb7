/**
 * The GitHub project URL parser of the project-sync workflow
 * (scripts/test-project-url-parsing.js) and the workflow's decision logic
 * around it (scripts/demo-project-sync-logic.js).
 *
 * Both scripts match the regular expression
 *   github\.com\/(users|orgs)\/([^\/]+)\/projects\/(\d+)
 * unanchored, taking the leftmost match. It is written out here as a matcher
 * at one position (`MatchAt`) and a left-to-right search (`Search`).
 * Because the owner group cannot contain `/`, and only `/` may follow it, the
 * greedy owner group never backtracks: it is the longest run of non-slash
 * characters. The digit group is the longest run of digits.
 */
module ProjectUrl {
  import opened Wrappers
  import opened Text

  datatype Kind = User | Org

  /** `kind` as the scripts spell it. */
  function KindName(k: Kind): string
  {
    match k
    case User => "user"
    case Org => "org"
  }

  /** The scope segment of the URL that selects each kind. */
  function ScopeWord(k: Kind): string
  {
    match k
    case User => "users"
    case Org => "orgs"
  }

  /** `parsedInfo`: kind, login, and the project number read in base 10. */
  datatype ProjectInfo = ProjectInfo(kind: Kind, login: string, number: nat)

  /** The three capture groups of a match. */
  datatype Capture = Capture(scope: Kind, owner: string, digits: string)

  /** What the groups may hold: a non-empty owner without `/`, and at least one digit. */
  predicate Shaped(c: Capture)
  {
    ShapedParts(c.owner, c.digits)
  }

  predicate ShapedParts(owner: string, digits: string)
  {
    && owner != []
    && (forall k :: 0 <= k < |owner| ==> owner[k] != '/')
    && digits != []
    && AllDigits(digits)
  }

  /** The text a match covers. */
  function Pattern(c: Capture): string
  {
    "github.com/" + (ScopeWord(c.scope) + "/") + (c.owner + "/projects/" + c.digits)
  }

  /**
   * The independent reading of the expression: the text contains, somewhere,
   * `github.com/`, `users/` or `orgs/`, an owner, `/projects/` and digits.
   */
  ghost predicate Accepts(s: string)
  {
    exists i: nat, c :: Shaped(c) && LitAt(s, i, Pattern(c))
  }

  predicate NotSlash(ch: char) { ch != '/' }

  /** The `(users|orgs)\/` part at position `j`: `users` is tried first, and the two cannot both occur. */
  function ScopeAt(s: string, j: nat): (r: Option<Kind>)
    ensures r.Some? ==> LitAt(s, j, ScopeWord(r.value) + "/")
  {
    if LitAt(s, j, "users/") then Some(User)
    else if LitAt(s, j, "orgs/") then Some(Org)
    else None
  }

  /** Where a scope word occurs, `ScopeAt` finds that one. */
  lemma ScopeAtFinds(s: string, j: nat, k: Kind)
    requires LitAt(s, j, ScopeWord(k) + "/")
    ensures ScopeAt(s, j) == Some(k)
  {
    if k == Org {
      assert s[j] == 'o';
    }
  }

  /** The `([^\/]+)\/projects\/(\d+)` part at position `o`: the owner and the digits. */
  function TailAt(s: string, o: nat): Option<(string, string)>
  {
    if o > |s| then None
    else
      var n := RunLength(s, o, NotSlash);
      if n == 0 || !LitAt(s, o + n, "/projects/") then None
      else
        var d := o + n + 10;
        var m := RunLength(s, d, IsDigit);
        if m == 0 then None else Some((s[o..o + n], s[d..d + m]))
  }

  /** What `TailAt` finds is an owner, `/projects/` and a digit run that cannot be extended. */
  lemma TailAtSound(s: string, o: nat, owner: string, digits: string)
    requires TailAt(s, o) == Some((owner, digits))
    ensures ShapedParts(owner, digits)
    ensures var t := owner + "/projects/" + digits;
      LitAt(s, o, t) && (o + |t| == |s| || !IsDigit(s[o + |t|]))
  {
    var n := RunLength(s, o, NotSlash);
    var d := o + n + 10;
    var m := RunLength(s, d, IsDigit);
    assert owner == s[o..o + n] && digits == s[d..d + m];
    RunLengthKeeps(s, o, NotSlash);
    RunLengthKeeps(s, d, IsDigit);
    forall k | 0 <= k < n ensures owner[k] != '/' {
      assert NotSlash(s[o + k]);
    }
    forall k | 0 <= k < m ensures IsDigit(digits[k]) {
      assert IsDigit(s[d + k]);
    }
    LitAtAppend3(s, o, owner, "/projects/", digits);
    assert o + |owner + "/projects/" + digits| == d + m;
  }

  /** Wherever an owner, `/projects/` and digits occur, `TailAt` finds that owner and at least those digits. */
  lemma TailAtComplete(s: string, o: nat, owner: string, digits: string)
    requires ShapedParts(owner, digits) && LitAt(s, o, owner + "/projects/" + digits)
    ensures TailAt(s, o).Some? && TailAt(s, o).value.0 == owner && digits <= TailAt(s, o).value.1
  {
    LitAtAppend3(s, o, owner, "/projects/", digits);
    var n := |owner|;
    OwnerRun(s, o, owner);
    var d := o + n + 10;
    DigitRun(s, d, digits);
    var m := RunLength(s, d, IsDigit);
    assert TailAt(s, o) == Some((s[o..o + n], s[d..d + m]));
    assert s[d..d + m][..|digits|] == s[d..d + |digits|] == digits;
  }

  /** An owner followed by `/` is exactly the run of non-slash characters there. */
  lemma OwnerRun(s: string, o: nat, owner: string)
    requires (forall k :: 0 <= k < |owner| ==> owner[k] != '/') && LitAt(s, o, owner) && LitAt(s, o + |owner|, "/projects/")
    ensures RunLength(s, o, NotSlash) == |owner|
  {
    var n := |owner|;
    assert s[o + n] == "/projects/"[0];
    forall j | o <= j < o + n ensures NotSlash(s[j]) {
      assert s[j] == owner[j - o];
    }
    RunLengthExact(s, o, NotSlash, n);
  }

  /** Where digits occur, the digit run there covers at least them. */
  lemma DigitRun(s: string, d: nat, digits: string)
    requires AllDigits(digits) && LitAt(s, d, digits)
    ensures RunLength(s, d, IsDigit) >= |digits|
  {
    forall j | d <= j < d + |digits| ensures IsDigit(s[j]) {
      assert s[j] == digits[j - d];
    }
    RunLengthAtLeast(s, d, IsDigit, |digits|);
  }

  /** The expression tried at position `i` of `s`. */
  function MatchAt(s: string, i: nat): Option<Capture>
  {
    if !LitAt(s, i, "github.com/") then None
    else
      match ScopeAt(s, i + 11)
      case None => None
      case Some(k) =>
        match TailAt(s, i + 11 + |ScopeWord(k)| + 1)
        case None => None
        case Some((owner, digits)) => Some(Capture(k, owner, digits))
  }

  /** `github.com/`, the scope and what `TailAt` finds make up an occurrence of the pattern. */
  lemma PatternFromParts(s: string, i: nat, c: Capture)
    requires LitAt(s, i, "github.com/") && LitAt(s, i + 11, ScopeWord(c.scope) + "/")
    requires var o := i + 12 + |ScopeWord(c.scope)|; var t := c.owner + "/projects/" + c.digits;
      LitAt(s, o, t) && (o + |t| == |s| || !IsDigit(s[o + |t|]))
    ensures LitAt(s, i, Pattern(c))
    ensures i + |Pattern(c)| == |s| || !IsDigit(s[i + |Pattern(c)|])
  {
    LitAtAppend3(s, i, "github.com/", ScopeWord(c.scope) + "/", c.owner + "/projects/" + c.digits);
  }

  /** A match at `i` covers its pattern, and its digit run cannot be extended. */
  lemma MatchAtSound(s: string, i: nat, c: Capture)
    requires MatchAt(s, i) == Some(c)
    ensures Shaped(c) && LitAt(s, i, Pattern(c))
    ensures i + |Pattern(c)| == |s| || !IsDigit(s[i + |Pattern(c)|])
  {
    MatchAtParts(s, i, c);
    TailAtSound(s, i + 12 + |ScopeWord(c.scope)|, c.owner, c.digits);
    PatternFromParts(s, i, c);
  }

  /** A match at `i` is `github.com/`, the scope `ScopeAt` reads, and what `TailAt` finds after it. */
  lemma MatchAtParts(s: string, i: nat, c: Capture)
    requires MatchAt(s, i) == Some(c)
    ensures LitAt(s, i, "github.com/") && LitAt(s, i + 11, ScopeWord(c.scope) + "/")
    ensures TailAt(s, i + 12 + |ScopeWord(c.scope)|) == Some((c.owner, c.digits))
  {
  }

  /** Wherever the pattern occurs, the matcher succeeds there with the same scope and owner and at least those digits. */
  lemma MatchAtComplete(s: string, i: nat, c: Capture)
    requires Shaped(c) && LitAt(s, i, Pattern(c))
    ensures MatchAt(s, i).Some?
    ensures MatchAt(s, i).value.scope == c.scope && MatchAt(s, i).value.owner == c.owner
    ensures c.digits <= MatchAt(s, i).value.digits
  {
    var w := ScopeWord(c.scope) + "/";
    var o := i + 11 + |w|;
    assert Pattern(c) == "github.com/" + w + (c.owner + "/projects/" + c.digits);
    LitAtAppend3(s, i, "github.com/", w, c.owner + "/projects/" + c.digits);
    ScopeAtFinds(s, i + 11, c.scope);
    TailAtComplete(s, o, c.owner, c.digits);
    var (owner, digits) := TailAt(s, o).value;
    MatchAtFromParts(s, i, c.scope, owner, digits);
  }

  /** `github.com/`, a scope and a tail that `TailAt` finds make a match. */
  lemma MatchAtFromParts(s: string, i: nat, k: Kind, owner: string, digits: string)
    requires LitAt(s, i, "github.com/") && ScopeAt(s, i + 11) == Some(k)
    requires TailAt(s, i + 12 + |ScopeWord(k)|) == Some((owner, digits))
    ensures MatchAt(s, i) == Some(Capture(k, owner, digits))
  {
  }

  /** The first position from `i` up to `n` where `at` finds something, with what it finds. */
  function FirstAt<T>(n: nat, i: nat, at: nat -> Option<T>): (r: Option<(nat, T)>)
    requires i <= n
    ensures r.Some? ==> i <= r.value.0 <= n && at(r.value.0) == Some(r.value.1)
    decreases n - i
  {
    var m := at(i);
    if m.Some? then Some((i, m.value))
    else if i == n then None
    else FirstAt(n, i + 1, at)
  }

  /** `FirstAt` finds the first position, and finds none only where there is none. */
  lemma {:induction false} FirstAtLeftmost<T>(n: nat, i: nat, at: nat -> Option<T>)
    requires i <= n
    ensures var r := FirstAt(n, i, at);
      && (r.Some? ==> forall j :: i <= j < r.value.0 ==> at(j).None?)
      && (r.None? <==> forall j :: i <= j <= n ==> at(j).None?)
    decreases n - i
  {
    if at(i).None? && i < n {
      FirstAtLeftmost(n, i + 1, at);
    }
  }

  /** The matcher over the positions of `s`. */
  function MatchIn(s: string): nat -> Option<Capture>
  {
    (j: nat) => MatchAt(s, j)
  }

  /** The leftmost match at or after position `i`, with its position. */
  function Search(s: string, i: nat): (r: Option<(nat, Capture)>)
    requires i <= |s|
    ensures r.Some? ==> i <= r.value.0 <= |s| && MatchAt(s, r.value.0) == Some(r.value.1)
  {
    FirstAt(|s|, i, MatchIn(s))
  }

  function InvalidFormatMessage(projectUrl: string): string
  {
    "\U{274C} Invalid project URL format: " + projectUrl
    + ". Expected format: https://github.com/{users|orgs}/{owner}/projects/{number}"
  }

  /** parseProjectUrl: the groups of the leftmost match, or the format error. */
  function ParseProjectUrl(projectUrl: string): (r: Result<ProjectInfo, string>)
    ensures r.Err? ==> r.error == InvalidFormatMessage(projectUrl)
    ensures r.Ok? ==> r.value.login != [] && forall k :: 0 <= k < |r.value.login| ==> r.value.login[k] != '/'
  {
    match Search(projectUrl, 0)
    case None => Err(InvalidFormatMessage(projectUrl))
    case Some((i, c)) =>
      MatchAtSound(projectUrl, i, c);
      Ok(ProjectInfo(c.scope, c.owner, DigitsValue(c.digits)))
  }

  /** A URL parses exactly when it contains the pattern somewhere. */
  lemma ParseAcceptsIff(projectUrl: string)
    ensures ParseProjectUrl(projectUrl).Ok? <==> Accepts(projectUrl)
  {
    if ParseProjectUrl(projectUrl).Ok? {
      var (i, c) := Search(projectUrl, 0).value;
      MatchAtSound(projectUrl, i, c);
    }
    if Accepts(projectUrl) {
      AcceptedParses(projectUrl);
    }
  }

  lemma AcceptedParses(projectUrl: string)
    requires Accepts(projectUrl)
    ensures Search(projectUrl, 0).Some?
  {
    var i: nat, c :| Shaped(c) && LitAt(projectUrl, i, Pattern(c));
    MatchAtComplete(projectUrl, i, c);
    assert MatchIn(projectUrl)(i).Some?;
    FirstAtLeftmost(|projectUrl|, 0, MatchIn(projectUrl));
  }

  /**
   * What a successful parse reports: the pattern occurs with that scope and
   * owner, and the number is the value of its maximal digit run.
   */
  lemma ParseFields(projectUrl: string)
    requires ParseProjectUrl(projectUrl).Ok?
    ensures var info := ParseProjectUrl(projectUrl).value;
      exists i: nat, digits :: Shaped(Capture(info.kind, info.login, digits))
        && LitAt(projectUrl, i, Pattern(Capture(info.kind, info.login, digits)))
        && info.number == DigitsValue(digits)
  {
    var (i, c) := Search(projectUrl, 0).value;
    MatchAtSound(projectUrl, i, c);
    assert c == Capture(c.scope, c.owner, c.digits);
  }

  /** The match is unanchored: text before and after an accepted URL does not change acceptance. */
  lemma AcceptsUnanchored(s: string, before: string, after: string)
    requires Accepts(s)
    ensures Accepts(before + s + after)
  {
    var i: nat, c :| Shaped(c) && LitAt(s, i, Pattern(c));
    var t := before + s + after;
    var p := Pattern(c);
    assert t[|before| + i..|before| + i + |p|] == s[i..i + |p|];
    assert LitAt(t, |before| + i, p);
  }

  /** A text whose every `g` starts no match is rejected. */
  lemma RejectedWithoutMatch(s: string)
    requires forall j :: 0 <= j < |s| && s[j] == 'g' ==> MatchAt(s, j).None?
    ensures ParseProjectUrl(s).Err?
  {
    forall j | 0 <= j <= |s| ensures MatchAt(s, j).None? {
      if j < |s| && s[j] != 'g' {
        NoMatchWithoutG(s, j);
      }
    }
    FirstAtLeftmost(|s|, 0, MatchIn(s));
  }

  /** The leftmost match decides the parse. */
  lemma ParsedFromFirstMatch(s: string, i: nat, c: Capture)
    requires i <= |s| && MatchAt(s, i) == Some(c) && Shaped(c)
    requires forall j :: 0 <= j < i ==> MatchAt(s, j).None?
    ensures ParseProjectUrl(s) == Ok(ProjectInfo(c.scope, c.owner, DigitsValue(c.digits)))
  {
    FirstAtLeftmost(|s|, 0, MatchIn(s));
    assert MatchIn(s)(i).Some?;
    var r := Search(s, 0);
    assert r.Some?;
    var p := r.value.0;
    assert MatchIn(s)(p) == MatchAt(s, p) == Some(r.value.1);
    assert !(p < i);
    assert !(i < p);
  }

  /** A pattern that ends the text is matched with exactly its groups. */
  lemma MatchAtEnd(s: string, i: nat, c: Capture)
    requires Shaped(c) && LitAt(s, i, Pattern(c)) && i + |Pattern(c)| == |s|
    ensures MatchAt(s, i) == Some(c)
  {
    MatchAtComplete(s, i, c);
    var found := MatchAt(s, i).value;
    MatchAtSound(s, i, found);
    assert |Pattern(found)| == |Pattern(c)| + |found.digits| - |c.digits|;
    assert found.digits == c.digits;
  }

  /** No match starts where the text has no `g`. */
  lemma NoMatchWithoutG(s: string, j: nat)
    requires j < |s| && s[j] != 'g'
    ensures MatchAt(s, j).None?
  {
  }

  /**
   * A text that ends in the pattern, with no `g` before it, parses to the
   * pattern's scope, owner and number.
   */
  lemma ParsedWhole(prefix: string, c: Capture)
    requires Shaped(c)
    requires forall j :: 0 <= j < |prefix| ==> prefix[j] != 'g'
    ensures ParseProjectUrl(prefix + Pattern(c)) == Ok(ProjectInfo(c.scope, c.owner, DigitsValue(c.digits)))
  {
    var s := prefix + Pattern(c);
    var i := |prefix|;
    assert s[i..i + |Pattern(c)|] == Pattern(c);
    MatchAtEnd(s, i, c);
    forall j | 0 <= j < i ensures MatchAt(s, j).None? {
      assert s[j] == prefix[j];
      NoMatchWithoutG(s, j);
    }
    ParsedFromFirstMatch(s, i, c);
  }

  /** The text has no `g`, so no match can start in it. */
  predicate NoG(t: string)
  {
    forall j :: 0 <= j < |t| ==> t[j] != 'g'
  }

  /** A text without a `g` is rejected. */
  lemma RejectedWithoutG(s: string)
    requires NoG(s)
    ensures ParseProjectUrl(s).Err?
  {
    RejectedWithoutMatch(s);
  }

  /** A text whose only `g` is at `i`, where no match starts, is rejected. */
  lemma RejectedWithOneG(s: string, i: nat)
    requires forall j :: 0 <= j < |s| && j != i ==> s[j] != 'g'
    requires MatchAt(s, i).None?
    ensures ParseProjectUrl(s).Err?
  {
    RejectedWithoutMatch(s);
  }

  /**
   * The accepted URLs of the script's test table parse to their kinds, logins
   * and numbers, after a scheme without a `g` such as `https://`.
   */
  lemma ValidUserExample(scheme: string)
    requires NoG(scheme)
    ensures ParseProjectUrl(scheme + Pattern(Capture(User, "AstroSteveo", "2"))) == Ok(ProjectInfo(User, "AstroSteveo", 2))
  {
    DigitsValueOfNatToString(2);
    assert NatToString(2) == "2";
    ValidExample(scheme, Capture(User, "AstroSteveo", NatToString(2)), 2);
  }

  lemma ValidOrgExample(scheme: string)
    requires NoG(scheme)
    ensures ParseProjectUrl(scheme + Pattern(Capture(Org, "MyOrg", "1"))) == Ok(ProjectInfo(Org, "MyOrg", 1))
  {
    DigitsValueOfNatToString(1);
    assert NatToString(1) == "1";
    ValidExample(scheme, Capture(Org, "MyOrg", NatToString(1)), 1);
  }

  lemma ValidLongerNumberExample(scheme: string)
    requires NoG(scheme)
    ensures ParseProjectUrl(scheme + Pattern(Capture(User, "testuser", "123"))) == Ok(ProjectInfo(User, "testuser", 123))
  {
    DigitsValueOfNatToString(123);
    assert NatToString(123) == "123";
    ValidExample(scheme, Capture(User, "testuser", NatToString(123)), 123);
  }

  lemma ValidExample(scheme: string, c: Capture, n: nat)
    requires NoG(scheme) && Shaped(c) && DigitsValue(c.digits) == n
    ensures ParseProjectUrl(scheme + Pattern(c)) == Ok(ProjectInfo(c.scope, c.owner, n))
  {
    ParsedWhole(scheme, c);
  }

  lemma NoGAppend(a: string, b: string)
    requires NoG(a) && NoG(b)
    ensures NoG(a + b)
  {
    forall j | 0 <= j < |a + b| ensures (a + b)[j] != 'g' {
      if j >= |a| {
        assert (a + b)[j] == b[j - |a|];
      }
    }
  }

  /** In a scheme, a host, a scope and a tail, none with a `g` of its own, the host's is the only `g`. */
  lemma OnlyHostG(scheme: string, tail: string)
    requires NoG(scheme) && NoG(tail)
    ensures var s := scheme + "github.com/" + "users/" + tail;
      && LitAt(s, |scheme| + 11, "users/")
      && s[|scheme| + 11 + 6..] == tail
      && forall j :: 0 <= j < |s| && j != |scheme| ==> s[j] != 'g'
  {
    var rest := "ithub.com/" + "users/" + tail;
    assert NoG("users/");
    assert NoG("ithub.com/");
    NoGAppend("ithub.com/", "users/");
    NoGAppend("ithub.com/" + "users/", tail);
    var s := scheme + "github.com/" + "users/" + tail;
    assert s == scheme + "g" + rest;
    forall j | 0 <= j < |s| && j != |scheme| ensures s[j] != 'g' {
      if j > |scheme| {
        assert s[j] == rest[j - |scheme| - 1];
      } else {
        assert s[j] == scheme[j];
      }
    }
    var i := |scheme| + 11;
    assert s[i..i + 6] == "users/";
  }

  /** A host followed by neither `users/` nor `orgs/` is rejected (the test table's `github.com/AstroSteveo/projects/2`). */
  lemma MissingScopeRejected(scheme: string, rest: string)
    requires NoG(scheme) && NoG(rest)
    requires !StartsWith(rest, "users/") && !StartsWith(rest, "orgs/")
    ensures ParseProjectUrl(scheme + "github.com/" + rest).Err?
  {
    var s := scheme + "github.com/" + rest;
    var i := |scheme|;
    assert NoG("ithub.com/");
    NoGAppend("ithub.com/", rest);
    assert s == scheme + "g" + ("ithub.com/" + rest);
    forall j | 0 <= j < |s| && j != i ensures s[j] != 'g' {
      if j > i {
        assert s[j] == ("ithub.com/" + rest)[j - i - 1];
      } else {
        assert s[j] == scheme[j];
      }
    }
    assert s[i + 11..] == rest;
    assert ScopeAt(s, i + 11).None?;
    RejectedWithOneG(s, i);
  }

  /** A host and a scope followed by a tail `TailAt` rejects start no match. */
  lemma NoMatchAfterScope(s: string, i: nat)
    requires LitAt(s, i, "github.com/") && LitAt(s, i + 11, "users/")
    requires TailAt(s, i + 11 + 6).None?
    ensures MatchAt(s, i).None?
  {
  }

  /** After a host and a scope, a tail without a `g` that `TailAt` rejects makes the text rejected. */
  lemma RejectedAfterScope(scheme: string, tail: string)
    requires NoG(scheme) && NoG(tail)
    requires TailAt(scheme + "github.com/" + "users/" + tail, |scheme| + 11 + 6).None?
    ensures ParseProjectUrl(scheme + "github.com/" + "users/" + tail).Err?
  {
    OnlyHostG(scheme, tail);
    var s := scheme + "github.com/" + "users/" + tail;
    assert s[|scheme|..|scheme| + 11] == "github.com/";
    NoMatchAfterScope(s, |scheme|);
    RejectedWithOneG(s, |scheme|);
  }

  /** An owner followed by `/project/` is no tail. */
  lemma SingularTailRejected(s: string, o: nat, owner: string, rest: string)
    requires o <= |s| && s[o..] == owner + "/project/" + rest
    requires owner != [] && forall j :: 0 <= j < |owner| ==> owner[j] != '/'
    ensures TailAt(s, o).None?
  {
    forall j | o <= j < o + |owner| ensures NotSlash(s[j]) {
      assert s[j] == s[o..][j - o] == owner[j - o];
    }
    assert s[o + |owner|] == s[o..][|owner|] == '/';
    RunLengthExact(s, o, NotSlash, |owner|);
    assert s[o + |owner| + 8] == s[o..][|owner| + 8] == '/';
  }

  /** An owner followed by `/projects/` and no digit is no tail. */
  lemma NumberlessTailRejected(s: string, o: nat, owner: string, rest: string)
    requires o <= |s| && s[o..] == owner + "/projects/" + rest
    requires owner != [] && forall j :: 0 <= j < |owner| ==> owner[j] != '/'
    requires rest == [] || !IsDigit(rest[0])
    ensures TailAt(s, o).None?
  {
    forall j | o <= j < o + |owner| ensures NotSlash(s[j]) {
      assert s[j] == s[o..][j - o] == owner[j - o];
    }
    assert s[o + |owner|] == s[o..][|owner|] == '/';
    RunLengthExact(s, o, NotSlash, |owner|);
    var d := o + |owner| + 10;
    assert s[d..] == rest;
    assert RunLength(s, d, IsDigit) == 0;
  }

  /** `/project/` in place of `/projects/` is rejected (the test table's `users/AstroSteveo/project/2`). */
  lemma SingularProjectRejected(scheme: string, owner: string, rest: string)
    requires NoG(scheme) && NoG(owner) && NoG(rest)
    requires owner != [] && forall j :: 0 <= j < |owner| ==> owner[j] != '/'
    ensures ParseProjectUrl(scheme + "github.com/" + "users/" + owner + "/project/" + rest).Err?
  {
    SingularProjectRejectedSplit(scheme, owner, rest);
    assert scheme + "github.com/" + "users/" + (owner + "/project/" + rest)
        == scheme + "github.com/" + "users/" + owner + "/project/" + rest;
  }

  lemma SingularProjectRejectedSplit(scheme: string, owner: string, rest: string)
    requires NoG(scheme) && NoG(owner) && NoG(rest)
    requires owner != [] && forall j :: 0 <= j < |owner| ==> owner[j] != '/'
    ensures ParseProjectUrl(scheme + "github.com/" + "users/" + (owner + "/project/" + rest)).Err?
  {
    var tail := owner + "/project/" + rest;
    assert NoG("/project/");
    NoGAppend(owner, "/project/");
    NoGAppend(owner + "/project/", rest);
    OnlyHostG(scheme, tail);
    var s := scheme + "github.com/" + "users/" + tail;
    SingularTailRejected(s, |scheme| + 11 + 6, owner, rest);
    RejectedAfterScope(scheme, tail);
  }

  /** `/projects/` without digits after it is rejected (the test table's `users/AstroSteveo/projects/`). */
  lemma MissingNumberRejected(scheme: string, owner: string, rest: string)
    requires NoG(scheme) && NoG(owner) && NoG(rest)
    requires owner != [] && forall j :: 0 <= j < |owner| ==> owner[j] != '/'
    requires rest == [] || !IsDigit(rest[0])
    ensures ParseProjectUrl(scheme + "github.com/" + "users/" + owner + "/projects/" + rest).Err?
  {
    MissingNumberRejectedSplit(scheme, owner, rest);
    assert scheme + "github.com/" + "users/" + (owner + "/projects/" + rest)
        == scheme + "github.com/" + "users/" + owner + "/projects/" + rest;
  }

  lemma MissingNumberRejectedSplit(scheme: string, owner: string, rest: string)
    requires NoG(scheme) && NoG(owner) && NoG(rest)
    requires owner != [] && forall j :: 0 <= j < |owner| ==> owner[j] != '/'
    requires rest == [] || !IsDigit(rest[0])
    ensures ParseProjectUrl(scheme + "github.com/" + "users/" + (owner + "/projects/" + rest)).Err?
  {
    var tail := owner + "/projects/" + rest;
    assert NoG("/projects/");
    NoGAppend(owner, "/projects/");
    NoGAppend(owner + "/projects/", rest);
    OnlyHostG(scheme, tail);
    var s := scheme + "github.com/" + "users/" + tail;
    NumberlessTailRejected(s, |scheme| + 11 + 6, owner, rest);
    RejectedAfterScope(scheme, tail);
  }

  /** The test table's rejects without a `g`: another domain, a non-URL, and the empty text. */
  lemma RejectsWithoutG()
    ensures NoG("https://example.com/users/test/projects/1")
    ensures NoG("invalid-url")
    ensures NoG("")
    ensures NoG("https://") && NoG("AstroSteveo") && NoG("AstroSteveo/projects/2") && NoG("2")
  {
  }

  /** The result of the workflow simulation: skipped, rejected, or a query plan. */
  datatype SyncResult =
    | JobSkipped
    | InvalidUrl(error: string)
    | Planned(parsedInfo: ProjectInfo, primary: Kind, fallback: Kind)

  /**
   * simulateWorkflowLogic: the job runs only with a URL and a token; the URL
   * is parsed with the same expression; the owner is queried first as the
   * parsed kind, then as the other kind.
   */
  function SimulateWorkflowLogic(projectUrl: string, hasToken: bool): (r: SyncResult)
    ensures projectUrl == "" || !hasToken ==> r == JobSkipped
    ensures projectUrl != "" && hasToken ==>
      && (r.InvalidUrl? <==> !Accepts(projectUrl))
      && (r.InvalidUrl? ==> r.error == InvalidFormatMessage(projectUrl))
      && (r.Planned? <==> Accepts(projectUrl))
    ensures r.Planned? ==> ParseProjectUrl(projectUrl) == Ok(r.parsedInfo)
    ensures r.Planned? ==> r.primary == r.parsedInfo.kind && r.fallback != r.primary
  {
    if projectUrl == "" || !hasToken then JobSkipped
    else
      ParseAcceptsIff(projectUrl);
      var parsed := ParseProjectUrl(projectUrl);
      if parsed.Err? then InvalidUrl(parsed.error)
      else Planned(parsed.value, parsed.value.kind, if parsed.value.kind == User then Org else User)
  }
}
