/** Wildcard permission grants (internal/authz/match.go and resolve.go). */
module Grants {
  import opened Wrappers
  import opened Text

  // ---------------------------------------------------------------- the string matcher

  /** `strings.CutPrefix`: the text after a prefix. */
  function CutPrefix(s: string, prefix: string): (r: Option<string>)
    ensures r.Some? <==> prefix <= s
    ensures r.Some? ==> s == prefix + r.value
  {
    if prefix <= s then Some(s[|prefix|..]) else None
  }

  /** `strings.CutSuffix`: the text before a suffix. */
  function CutSuffix(s: string, suffix: string): (r: Option<string>)
    ensures r.Some? ==> s == r.value + suffix
    ensures r.None? ==> forall t: string :: s != t + suffix
  {
    assert forall t: string :: |suffix| <= |t + suffix| && (t + suffix)[|t + suffix| - |suffix|..] == suffix;
    if |suffix| <= |s| && s[|s| - |suffix|..] == suffix then
      assert s == s[..|s| - |suffix|] + suffix;
      Some(s[..|s| - |suffix|])
    else None
  }

  /** `strings.LastIndex(s, ".")`, or -1. */
  function LastDot(s: string): (i: int)
    ensures -1 <= i < |s|
    ensures i >= 0 ==> s[i] == '.'
    ensures forall j :: i < j < |s| ==> s[j] != '.'
  {
    if s == [] then -1 else if s[|s| - 1] == '.' then |s| - 1 else LastDot(s[..|s| - 1])
  }

  predicate Match(pattern: string, key: string) {
    if pattern == "" || key == "" then false
    else if pattern == "*" then true
    else if '*' !in pattern then pattern == key
    else
      match CutPrefix(pattern, "*.")
      case Some(suffix) =>
        if '*' in suffix || '.' in suffix then false
        else LastDot(key) >= 0 && key[LastDot(key) + 1..] == suffix
      case None =>
        match CutSuffix(pattern, ".*")
        case Some(prefix) => if '*' in prefix then false else prefix + "." <= key
        case None => false
  }

  predicate ValidGrantPattern(pattern: string) {
    if pattern == "" then false
    else if pattern == "*" then true
    else if '*' !in pattern then pattern[0] != '.' && pattern[|pattern| - 1] != '.'
    else
      match CutPrefix(pattern, "*.")
      case Some(suffix) => suffix != "" && '*' !in suffix && '.' !in suffix
      case None =>
        match CutSuffix(pattern, ".*")
        case Some(prefix) => prefix != "" && '*' !in prefix
        case None => false
  }

  // ---------------------------------------------------------------- segment semantics

  function Segments(s: string): (p: seq<string>)
    ensures |p| >= 1
  {
    Split(s, '.')
  }

  predicate Literal(p: seq<string>) { forall i :: 0 <= i < |p| ==> '*' !in p[i] }

  /**
   * The four documented pattern forms, over dot-separated segments: everything, an identical key, a
   * literal head followed by at least one more segment, or a literal last segment at any depth below one.
   */
  predicate SegmentMatch(p: seq<string>, k: seq<string>)
    requires |p| >= 1 && |k| >= 1
  {
    && k != [""] && p != [""]
    && (|| p == ["*"]
        || (Literal(p) && p == k)
        || (|p| >= 2 && p[|p| - 1] == "*" && Literal(p[..|p| - 1]) && |k| >= |p| && k[..|p| - 1] == p[..|p| - 1])
        || (|p| == 2 && p[0] == "*" && '*' !in p[1] && |k| >= 2 && k[|k| - 1] == p[1]))
  }

  lemma StarSegments(s: string)
    ensures '*' !in s <==> Literal(Segments(s))
  {
    SplitSymbol(s, '.', '*');
    var p := Segments(s);
    if '*' in s {
      var i :| 0 <= i < |p| && '*' in p[i];
      assert !Literal(p);
    } else {
      assert forall i :: 0 <= i < |p| ==> '*' !in p[i];
    }
  }

  lemma SegmentsInjective(a: string, b: string)
    ensures Segments(a) == Segments(b) <==> a == b
  {
    JoinSplit(a, '.');
    JoinSplit(b, '.');
  }

  lemma SegmentsOfHeadTail(head: string, tail: string)
    ensures Segments(head + "." + tail) == Segments(head) + Segments(tail)
    ensures '.' !in tail ==> Segments(tail) == [tail]
  {
    SplitConcat(head, tail, '.');
    if '.' !in tail {
      SplitWhole(tail, '.');
    }
  }

  /** A text whose segments split into two non-empty groups is the two joined texts around a dot. */
  lemma SegmentsSplitAt(s: string, n: nat)
    requires 0 < n < |Segments(s)|
    ensures s == Join(Segments(s)[..n], '.') + "." + Join(Segments(s)[n..], '.')
  {
    JoinSplit(s, '.');
    assert Segments(s) == Segments(s)[..n] + Segments(s)[n..];
    JoinConcat(Segments(s)[..n], Segments(s)[n..], '.');
  }

  /** Beginning with a text and a dot is having its segments as a proper prefix. */
  lemma PrefixIsSegmentPrefix(prefix: string, key: string)
    ensures prefix + "." <= key <==>
            |Segments(key)| > |Segments(prefix)| && Segments(key)[..|Segments(prefix)|] == Segments(prefix)
  {
    var ps, ks := Segments(prefix), Segments(key);
    if prefix + "." <= key {
      var rest := key[|prefix| + 1..];
      assert key == prefix + "." + rest;
      SegmentsOfHeadTail(prefix, rest);
    }
    if |ks| > |ps| && ks[..|ps|] == ps {
      SegmentsSplitAt(key, |ps|);
      JoinSplit(prefix, '.');
    }
  }

  /** The text after the last dot is the last of at least two segments. */
  lemma LastSegment(key: string)
    ensures LastDot(key) >= 0 <==> |Segments(key)| >= 2
    ensures LastDot(key) >= 0 ==> key[LastDot(key) + 1..] == Segments(key)[|Segments(key)| - 1]
  {
    var i := LastDot(key);
    if i >= 0 {
      assert key == key[..i] + "." + key[i + 1..];
      SegmentsOfHeadTail(key[..i], key[i + 1..]);
    } else {
      SplitWhole(key, '.');
    }
  }

  /** A pattern that is a text, a dot and a star. */
  lemma StarTail(prefix: string)
    ensures Segments(prefix + ".*") == Segments(prefix) + ["*"]
  {
    assert prefix + ".*" == prefix + "." + "*";
    SegmentsOfHeadTail(prefix, "*");
  }

  /** A pattern that is a star, a dot and a text. */
  lemma StarHead(suffix: string)
    ensures Segments("*." + suffix) == ["*"] + Segments(suffix)
  {
    assert "*." + suffix == "*" + "." + suffix;
    SegmentsOfHeadTail("*", suffix);
    SplitWhole("*", '.');
  }

  /** A star segment at either end of several segments shows in the text. */
  lemma StarEnds(s: string)
    requires |Segments(s)| >= 2
    ensures Segments(s)[0] == "*" ==> CutPrefix(s, "*.").Some?
    ensures Segments(s)[|Segments(s)| - 1] == "*" ==> CutSuffix(s, ".*").Some?
  {
    var p := Segments(s);
    SegmentsSplitAt(s, 1);
    SegmentsSplitAt(s, |p| - 1);
    assert p[..1] == [p[0]] && p[|p| - 1..] == [p[|p| - 1]];
    if p[|p| - 1] == "*" {
      assert s == Join(p[..|p| - 1], '.') + ".*";
    }
  }

  lemma MatchLiteral(pattern: string, key: string)
    requires pattern != "" && key != "" && '*' !in pattern
    ensures Match(pattern, key) <==> SegmentMatch(Segments(pattern), Segments(key))
  {
    StarSegments(pattern);
    SegmentsInjective(pattern, key);
    SegmentsInjective(pattern, "");
    SegmentsInjective(key, "");
    var p := Segments(pattern);
    assert '*' !in p[0] && '*' !in p[|p| - 1];
  }

  lemma MatchStarHead(suffix: string, key: string)
    requires key != ""
    ensures Match("*." + suffix, key) <==> SegmentMatch(Segments("*." + suffix), Segments(key))
  {
    var pattern := "*." + suffix;
    assert pattern[0] == '*' && pattern[2..] == suffix;
    StarHead(suffix);
    SegmentsInjective(key, "");
    var p := ["*"] + Segments(suffix);
    assert p[0] == "*" && !Literal(p);
    assert p[..|p| - 1][0] == "*";
    LastSegment(key);
    LastSegment(suffix);
    if '.' !in suffix {
      SplitWhole(suffix, '.');
    }
  }

  lemma MatchStarTail(prefix: string, key: string)
    requires key != "" && !("*." <= prefix + ".*")
    ensures Match(prefix + ".*", key) <==> SegmentMatch(Segments(prefix + ".*"), Segments(key))
  {
    var pattern := prefix + ".*";
    assert CutSuffix(pattern, ".*").value == prefix;
    assert pattern[|prefix| + 1] == '*' && '*' in pattern && pattern != "*";
    StarTail(prefix);
    StarSegments(prefix);
    PrefixIsSegmentPrefix(prefix, key);
    SegmentsInjective(key, "");
    var p, head := Segments(pattern), Segments(prefix);
    assert p[..|p| - 1] == head;
    assert p[|p| - 1] == "*" && !Literal(p);
    if p[0] == "*" {
      StarEnds(pattern);
    }
  }

  lemma MatchUnsupported(pattern: string, key: string)
    requires key != "" && '*' in pattern && pattern != "*"
    requires CutPrefix(pattern, "*.").None? && CutSuffix(pattern, ".*").None?
    ensures !Match(pattern, key) && !SegmentMatch(Segments(pattern), Segments(key))
  {
    StarSegments(pattern);
    SplitWhole("*", '.');
    SegmentsInjective(pattern, "*");
    if |Segments(pattern)| >= 2 {
      StarEnds(pattern);
    }
  }

  /** The string matcher decides exactly the segment semantics, for every pattern and every key. */
  lemma MatchIsSegmentMatch(pattern: string, key: string)
    ensures Match(pattern, key) <==> SegmentMatch(Segments(pattern), Segments(key))
  {
    SegmentsInjective(pattern, "");
    SegmentsInjective(key, "");
    if pattern == "" || key == "" {
    } else if pattern == "*" {
      SplitWhole("*", '.');
    } else if '*' !in pattern {
      MatchLiteral(pattern, key);
    } else if CutPrefix(pattern, "*.").Some? {
      MatchStarHead(CutPrefix(pattern, "*.").value, key);
    } else if CutSuffix(pattern, ".*").Some? {
      MatchStarTail(CutSuffix(pattern, ".*").value, key);
    } else {
      MatchUnsupported(pattern, key);
    }
  }

  // ---------------------------------------------------------------- which patterns are storable

  /** A key without a leading or a trailing dot. */
  predicate WellFormedKey(key: string) {
    key != "" && key[0] != '.' && key[|key| - 1] != '.'
  }

  /** A well-formed key that a storable pattern grants. */
  function Witness(pattern: string): string
    requires ValidGrantPattern(pattern)
  {
    if pattern == "*" then "a"
    else if '*' !in pattern then pattern
    else if CutPrefix(pattern, "*.").Some? then "a." + CutPrefix(pattern, "*.").value
    else CutSuffix(pattern, ".*").value + ".a"
  }

  lemma WitnessMatches(pattern: string)
    requires ValidGrantPattern(pattern)
    ensures Match(pattern, Witness(pattern))
    ensures pattern[0] != '.' ==> WellFormedKey(Witness(pattern))
  {
    var key := Witness(pattern);
    if pattern != "*" && '*' in pattern {
      if CutPrefix(pattern, "*.").Some? {
        var suffix := CutPrefix(pattern, "*.").value;
        assert key == "a" + "." + suffix;
        SegmentsOfHeadTail("a", suffix);
        LastSegment(key);
      } else {
        var prefix := CutSuffix(pattern, ".*").value;
        assert key == prefix + "." + "a";
      }
    }
  }

  /**
   * Write-time validation against matching. Every storable pattern grants some key, and every pattern
   * granting a well-formed key is storable. The converse of the second half fails exactly for patterns
   * that begin with a dot, which are storable but reach no well-formed key.
   */
  lemma StorableIffUseful(pattern: string)
    ensures ValidGrantPattern(pattern) ==> exists key :: Match(pattern, key)
    ensures (exists key :: WellFormedKey(key) && Match(pattern, key)) <==>
            ValidGrantPattern(pattern) && pattern[0] != '.'
  {
    if ValidGrantPattern(pattern) {
      WitnessMatches(pattern);
    }
    forall key | WellFormedKey(key) && Match(pattern, key)
      ensures ValidGrantPattern(pattern) && pattern[0] != '.'
    {
      if pattern != "*" && '*' in pattern && CutPrefix(pattern, "*.").None? {
        var prefix := CutSuffix(pattern, ".*").value;
        assert (prefix + ".")[0] == key[0];
        assert pattern[0] == (if prefix == "" then '.' else prefix[0]);
      }
    }
  }

  lemma LastSegmentEmpty(s: string)
    requires s != ""
    ensures Segments(s)[|Segments(s)| - 1] == "" <==> s[|s| - 1] == '.'
  {
    LastSegment(s);
    var i, n := LastDot(s), |s|;
    if i < 0 {
      assert s[n - 1] != '.';
      SplitWhole(s, '.');
    } else if i < n - 1 {
      assert s[n - 1] != '.' && |s[i + 1..]| > 0;
    } else {
      assert s[i + 1..] == "";
    }
  }

  lemma StorableStarHead(suffix: string)
    ensures var p := Segments("*." + suffix);
            ValidGrantPattern("*." + suffix) <==> |p| == 2 && p[1] != "" && '*' !in p[1]
    ensures var p := Segments("*." + suffix); p[0] == "*" && |p| >= 2 && !Literal(p[..|p| - 1])
  {
    var pattern := "*." + suffix;
    assert pattern[0] == '*' && pattern[2..] == suffix;
    StarHead(suffix);
    LastSegment(suffix);
    if '.' !in suffix {
      SplitWhole(suffix, '.');
    }
    var p := Segments(pattern);
    assert p[..|p| - 1][0] == "*";
  }

  lemma StorableStarTail(prefix: string)
    requires !("*." <= prefix + ".*")
    ensures ValidGrantPattern(prefix + ".*") <==> Segments(prefix) != [""] && Literal(Segments(prefix))
  {
    var pattern := prefix + ".*";
    assert CutSuffix(pattern, ".*").value == prefix;
    assert pattern[|prefix| + 1] == '*' && '*' in pattern && pattern != "*";
    StarSegments(prefix);
    SegmentsInjective(prefix, "");
  }

  /** The storable patterns with a star, segment by segment. */
  lemma StorableWithStar(pattern: string)
    requires '*' in pattern && pattern != "*"
    ensures ValidGrantPattern(pattern) <==>
              var p := Segments(pattern);
              || (|p| >= 2 && p[|p| - 1] == "*" && Literal(p[..|p| - 1]) && p[..|p| - 1] != [""])
              || (|p| == 2 && p[0] == "*" && p[1] != "" && '*' !in p[1])
  {
    var p := Segments(pattern);
    if |p| >= 2 {
      StarEnds(pattern);
    }
    if CutPrefix(pattern, "*.").Some? {
      StorableStarHead(CutPrefix(pattern, "*.").value);
    } else if CutSuffix(pattern, ".*").Some? {
      var prefix := CutSuffix(pattern, ".*").value;
      StarTail(prefix);
      StorableStarTail(prefix);
      assert p[..|p| - 1] == Segments(prefix);
    }
  }

  /**
   * What is storable: everything, a key without empty segments at either end, a literal head that is not empty and
   * then a star, or a star and then one literal segment.
   */
  lemma StorableSegments(pattern: string)
    ensures ValidGrantPattern(pattern) <==>
              var p := Segments(pattern);
              || p == ["*"]
              || (Literal(p) && p[0] != "" && p[|p| - 1] != "")
              || (|p| >= 2 && p[|p| - 1] == "*" && Literal(p[..|p| - 1]) && p[..|p| - 1] != [""])
              || (|p| == 2 && p[0] == "*" && p[1] != "" && '*' !in p[1])
  {
    var p := Segments(pattern);
    StarSegments(pattern);
    SplitWhole("*", '.');
    SegmentsInjective(pattern, "*");
    if pattern != "" {
      assert Segments(pattern) == Prepend(pattern[0], Split(pattern[1..], '.'), '.');
      LastSegmentEmpty(pattern);
    }
    if '*' !in pattern {
      assert forall i :: 0 <= i < |p| ==> '*' !in p[i];
      assert p[|p| - 1] != "*" && p[0] != "*";
    } else if pattern != "*" {
      StorableWithStar(pattern);
    }
  }

  // ---------------------------------------------------------------- expansion

  ghost predicate GrantedBy(patterns: seq<string>, key: string) {
    exists i :: 0 <= i < |patterns| && Match(patterns[i], key)
  }

  /** The granted keys: a plain union over patterns and permissions. */
  method Expand(patterns: seq<string>, permissions: seq<string>) returns (granted: set<string>)
    ensures forall key :: key in granted <==> key in permissions && GrantedBy(patterns, key)
  {
    granted := {};
    for i := 0 to |patterns|
      invariant forall key :: key in granted <==> key in permissions && GrantedBy(patterns[..i], key)
    {
      for j := 0 to |permissions|
        invariant forall key :: key in granted <==>
          || (key in permissions && GrantedBy(patterns[..i], key))
          || (key in permissions[..j] && Match(patterns[i], key))
      {
        assert permissions[..j + 1] == permissions[..j] + [permissions[j]];
        if Match(patterns[i], permissions[j]) {
          granted := granted + {permissions[j]};
        }
      }
      assert permissions[..|permissions|] == permissions;
      GrantedByOneMore(patterns, i);
    }
    assert patterns[..|patterns|] == patterns;
  }

  lemma GrantedByOneMore(patterns: seq<string>, i: nat)
    requires i < |patterns|
    ensures forall key :: GrantedBy(patterns[..i + 1], key) <==> GrantedBy(patterns[..i], key) || Match(patterns[i], key)
  {
    forall key
      ensures GrantedBy(patterns[..i + 1], key) <==> GrantedBy(patterns[..i], key) || Match(patterns[i], key)
    {
      if GrantedBy(patterns[..i], key) {
        var n :| 0 <= n < i && Match(patterns[..i][n], key);
        assert patterns[..i + 1][n] == patterns[..i][n];
      }
      if Match(patterns[i], key) {
        assert patterns[..i + 1][i] == patterns[i];
      }
      if GrantedBy(patterns[..i + 1], key) {
        var n :| 0 <= n < i + 1 && Match(patterns[..i + 1][n], key);
        assert n < i ==> patterns[..i][n] == patterns[..i + 1][n];
      }
    }
  }

  // ---------------------------------------------------------------- effective grants

  datatype DirectRole = DirectRole(admin: nat, role: nat, revoked: bool, expiresAt: Option<int>)
  datatype TeamMember = TeamMember(team: nat, admin: nat)
  datatype TeamRole = TeamRole(team: nat, role: nat)
  datatype RolePattern = RolePattern(role: nat, pattern: string)

  /** The tables behind a staff member's permissions. */
  datatype Iam = Iam(
    roles: set<nat>,
    direct: set<DirectRole>,
    members: set<TeamMember>,
    teamRoles: set<TeamRole>,
    patterns: set<RolePattern>,
    permissions: seq<string>)

  ghost predicate HoldsRole(iam: Iam, admin: nat, role: nat, now: int) {
    && role in iam.roles
    && (|| (exists d :: d in iam.direct && d.admin == admin && d.role == role && !d.revoked
                        && (d.expiresAt.None? || d.expiresAt.value > now))
        || (exists m, t :: m in iam.members && t in iam.teamRoles && m.team == t.team
                           && m.admin == admin && t.role == role))
  }

  /** A permission is effective when a live role, direct or through a team, carries a matching pattern. */
  ghost predicate Effective(iam: Iam, admin: nat, key: string, now: int) {
    && key in iam.permissions
    && exists g :: g in iam.patterns && HoldsRole(iam, admin, g.role, now) && Match(g.pattern, key)
  }

  /** The two ways to a permission, row by row: an unrevoked, unexpired direct role, or the role of a team. */
  lemma EffectiveIff(iam: Iam, admin: nat, key: string, now: int)
    ensures Effective(iam, admin, key, now) <==>
              && key in iam.permissions
              && exists g :: && g in iam.patterns && Match(g.pattern, key) && g.role in iam.roles
                             && (|| (exists until :: DirectRole(admin, g.role, false, until) in iam.direct
                                                     && (until.Some? ==> now < until.value))
                                 || (exists team :: TeamMember(team, admin) in iam.members
                                                    && TeamRole(team, g.role) in iam.teamRoles))
  {
    forall role ensures HoldsRole(iam, admin, role, now) <==>
                          && role in iam.roles
                          && (|| (exists until :: DirectRole(admin, role, false, until) in iam.direct
                                                  && (until.Some? ==> now < until.value))
                              || (exists team :: TeamMember(team, admin) in iam.members
                                                 && TeamRole(team, role) in iam.teamRoles))
    {
      if d :| d in iam.direct && d.admin == admin && d.role == role && !d.revoked
              && (d.expiresAt.None? || d.expiresAt.value > now) {
        assert DirectRole(admin, role, false, d.expiresAt) in iam.direct;
      }
      if m, t :| m in iam.members && t in iam.teamRoles && m.team == t.team && m.admin == admin && t.role == role {
        assert TeamMember(t.team, admin) in iam.members && TeamRole(t.team, role) in iam.teamRoles;
      }
    }
  }

  /** A direct role that is revoked, or has lapsed, grants nothing: the row may as well not be there. */
  lemma DeadRoleGrantsNothing(iam: Iam, d: DirectRole, admin: nat, key: string, now: int)
    requires d.revoked || (d.expiresAt.Some? && d.expiresAt.value <= now)
    ensures Effective(iam, admin, key, now) <==> Effective(iam.(direct := iam.direct - {d}), admin, key, now)
  {
    var rest := iam.(direct := iam.direct - {d});
    forall role ensures HoldsRole(iam, admin, role, now) <==> HoldsRole(rest, admin, role, now) {
      if d' :| d' in iam.direct && d'.admin == admin && d'.role == role && !d'.revoked
               && (d'.expiresAt.None? || d'.expiresAt.value > now) {
        assert d' in rest.direct;
      }
    }
  }

  /** Listing a finite set in some order, as a query without ORDER BY does. */
  method Rows(s: set<string>) returns (rows: seq<string>)
    ensures forall x :: x in rows <==> x in s
  {
    rows := [];
    var left := s;
    while left != {}
      invariant left <= s
      invariant forall x :: x in rows <==> x in s - left
      decreases left
    {
      var x :| x in left;
      rows := rows + [x];
      left := left - {x};
    }
  }

  method ResolveAdminGrants(iam: Iam, admin: nat, now: int) returns (granted: set<string>)
    ensures forall key :: key in granted <==> Effective(iam, admin, key, now)
  {
    var direct := set d | d in iam.direct && d.admin == admin && !d.revoked
                          && (d.expiresAt.None? || d.expiresAt.value > now) :: d.role;
    var team := set m, t | m in iam.members && t in iam.teamRoles && m.team == t.team && m.admin == admin :: t.role;
    var roleIds := set r | r in iam.roles && (r in direct || r in team);
    assert forall r :: r in roleIds <==> HoldsRole(iam, admin, r, now);
    if roleIds == {} {
      return {};
    }
    var patternSet := set g | g in iam.patterns && g.role in roleIds :: g.pattern;
    var patterns := Rows(patternSet);
    granted := Expand(patterns, iam.permissions);
    forall key ensures GrantedBy(patterns, key) <==>
                       exists g :: g in iam.patterns && HoldsRole(iam, admin, g.role, now) && Match(g.pattern, key)
    {
      if GrantedBy(patterns, key) {
        var i :| 0 <= i < |patterns| && Match(patterns[i], key);
        assert patterns[i] in patterns;
        var g :| g in iam.patterns && g.role in roleIds && g.pattern == patterns[i];
      }
      if g :| g in iam.patterns && HoldsRole(iam, admin, g.role, now) && Match(g.pattern, key) {
        assert g.pattern in patternSet;
        assert g.pattern in patterns;
      }
    }
  }

  /**
   * There are no deny rules: adding rows of any kind only adds permissions, and the passing of time only
   * removes them, so a time-boxed role lapses without anything having to run.
   */
  lemma GrantsAreMonotone(small: Iam, large: Iam, admin: nat, key: string, now: int, later: int)
    requires small.roles <= large.roles && small.direct <= large.direct && small.members <= large.members
    requires small.teamRoles <= large.teamRoles && small.patterns <= large.patterns
    requires forall k :: k in small.permissions ==> k in large.permissions
    requires now <= later
    ensures Effective(small, admin, key, later) ==> Effective(large, admin, key, now)
  {
    if Effective(small, admin, key, later) {
      var g :| g in small.patterns && HoldsRole(small, admin, g.role, later) && Match(g.pattern, key);
      assert HoldsRole(large, admin, g.role, now);
    }
  }

  /** "*.read" grants exactly the keys whose last of several segments is "read". */
  lemma ReadWildcardIsReadOnly(key: string)
    ensures Match("*.read", key) <==> |Segments(key)| >= 2 && Segments(key)[|Segments(key)| - 1] == "read"
  {
    assert "*.read"[2..] == "read";
    LastSegment(key);
    assert "*." + "read" == "*.read";
    MatchIsSegmentMatch("*.read", key);
    StarHead("read");
    SplitWhole("read", '.');
    assert Segments("*.read") == ["*", "read"];
  }
}
