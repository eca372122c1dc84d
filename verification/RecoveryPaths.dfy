// What the rule for a bundle's paths says of their names (cmd/doorman/recovery.go).
module RecoveryPaths {
  import opened Basics
  import opened RecoveryProtocol

  // A name that filepath.Clean keeps.
  predicate Plain(name: string) { name != "" && '/' !in name && name != "." && name != ".." }

  function Joined(names: seq<string>): string {
    if names == [] then "" else "/" + names[0] + Joined(names[1..])
  }

  function PathOf(names: seq<string>): string { if names == [] then "/" else Joined(names) }

  ghost predicate AllPlain(names: seq<string>) { forall n | n in names :: Plain(n) }

  // What begins with a slash begins at the start of a path or after its first
  // name.
  lemma OccursSplit(name: string, rest: string, t: string, i: nat)
    requires '/' !in name && t != "" && t[0] == '/'
    ensures OccursAt("/" + name + rest, t, i) <==>
              (i == 0 && t <= "/" + name + rest) || (i > |name| && OccursAt(rest, t, i - 1 - |name|))
  {
    var p := "/" + name + rest;
    if i + |t| <= |p| {
      assert p[i..i + |t|][0] == p[i];
      if 0 < i <= |name| {
        assert p[i] == name[i - 1];
      } else if i > |name| {
        assert p[i..i + |t|] == rest[i - 1 - |name|..i - 1 - |name| + |t|];
      }
    }
  }

  lemma ContainsSplit(name: string, rest: string, t: string)
    requires '/' !in name && t != "" && t[0] == '/'
    ensures Contains("/" + name + rest, t) <==> t <= "/" + name + rest || Contains(rest, t)
  {
    hide OccursAt;
    var p := "/" + name + rest;
    forall i: nat ensures OccursAt(p, t, i) <==> (i == 0 && t <= p) || (i > |name| && OccursAt(rest, t, i - 1 - |name|)) {
      OccursSplit(name, rest, t, i);
    }
    if t <= p {
      assert OccursAt(p, t, 0);
    }
    if i :| 0 <= i <= |rest| && OccursAt(rest, t, i) {
      assert OccursAt(p, t, i + 1 + |name|);
    }
  }

  lemma EndsSplit(name: string, rest: string, t: string)
    requires '/' !in name && t != "" && t[0] == '/'
    ensures EndsWith("/" + name + rest, t) <==> "/" + name + rest == t || EndsWith(rest, t)
  {
    var p := "/" + name + rest;
    if |p| >= |t| {
      OccursSplit(name, rest, t, |p| - |t|);
    }
  }

  lemma FirstSlash(name: string, rest: string)
    requires '/' !in name && (rest == "" || rest[0] == '/')
    ensures var p := "/" + name + rest;
            && |p| == 1 + |name| + |rest| && (rest != "" ==> p[1 + |name|] == '/')
            && forall k | 0 < k <= |name| :: p[k] != '/'
  {
    var p := "/" + name + rest;
    forall k | 0 < k <= |name| ensures p[k] != '/' {
      assert p[k] == name[k - 1];
    }
  }

  // The names of a path: the first and what follows it.
  lemma OneName(name: string, rest: string, other: string, more: string)
    requires '/' !in name && '/' !in other && (rest == "" || rest[0] == '/') && (more == "" || more[0] == '/')
    ensures "/" + name + rest == "/" + other + more <==> name == other && rest == more
  {
    var p, q := "/" + name + rest, "/" + other + more;
    FirstSlash(name, rest);
    FirstSlash(other, more);
    if p == q {
      assert |name| == |other|;
      assert name == p[1..1 + |name|] && other == q[1..1 + |other|];
      assert rest == p[1 + |name|..] && more == q[1 + |other|..];
    }
  }

  lemma BeginsSplit(name: string, rest: string, other: string)
    requires '/' !in name && '/' !in other && (rest == "" || rest[0] == '/')
    ensures "/" + other + "/" <= "/" + name + rest <==> name == other && rest != ""
  {
    var p, t := "/" + name + rest, "/" + other + "/";
    if t <= p {
      var more := p[1 + |other|..];
      assert more[0] == t[1 + |other|] == '/';
      assert p == "/" + other + more;
      OneName(name, rest, other, more);
    }
  }

  predicate Tidy(p: string) {
    && !EndsWith(p, "/") && !Contains(p, "//") && !Contains(p, "/./") && !EndsWith(p, "/.")
    && !Contains(p, "/../") && !EndsWith(p, "/..")
  }

  lemma TidySplit(name: string, rest: string)
    requires '/' !in name && (rest == "" || rest[0] == '/')
    ensures Tidy("/" + name + rest) <==> Plain(name) && Tidy(rest)
  {
    hide Contains, EndsWith;
    ContainsSplit(name, rest, "//");
    ContainsSplit(name, rest, "/./");
    ContainsSplit(name, rest, "/../");
    EndsSplit(name, rest, "/");
    EndsSplit(name, rest, "/.");
    EndsSplit(name, rest, "/..");
    BeginsSplit(name, rest, "");
    BeginsSplit(name, rest, ".");
    BeginsSplit(name, rest, "..");
    OneName(name, rest, "", "");
    OneName(name, rest, ".", "");
    OneName(name, rest, "..", "");
    assert "/" + "" + "/" == "//" && "/" + "." + "/" == "/./" && "/" + ".." + "/" == "/../";
    assert "/" + "" + "" == "/" && "/" + "." + "" == "/." && "/" + ".." + "" == "/..";
  }

  lemma NothingIsTidy()
    ensures Tidy("") && !Contains("", "/account/") && !EndsWith("", "/backup/identity.key") && !EndsWith("", "/identity.key")
  {
  }

  lemma JoinedBegins(names: seq<string>)
    ensures Joined(names) == "" <==> names == []
    ensures names != [] ==> Joined(names)[0] == '/'
  {
  }

  lemma {:induction false} JoinedIsTidy(names: seq<string>)
    requires forall n | n in names :: '/' !in n
    ensures Tidy(Joined(names)) <==> AllPlain(names)
  {
    hide Tidy, Plain;
    if names == [] {
      NothingIsTidy();
    } else {
      JoinedIsTidy(names[1..]);
      JoinedBegins(names[1..]);
      TidySplit(names[0], Joined(names[1..]));
      assert names == [names[0]] + names[1..];
    }
  }

  // Every path that begins with a slash is made of names, plain or not.
  lemma {:induction false} HasNames(p: string) returns (names: seq<string>)
    requires p == "" || p[0] == '/'
    ensures p == Joined(names) && forall n | n in names :: '/' !in n
    decreases |p|
  {
    if p == "" {
      names := [];
    } else {
      var k := 1;
      while k < |p| && p[k] != '/'
        invariant 1 <= k <= |p| && '/' !in p[1..k]
      {
        k := k + 1;
      }
      var more := HasNames(p[k..]);
      names := [p[1..k]] + more;
      assert names[1..] == more;
      assert p == "/" + p[1..k] + p[k..];
    }
  }

  lemma CleanMeans(p: string)
    ensures CleanAbsolute(p) <==> exists names :: AllPlain(names) && p == PathOf(names)
  {
    hide Plain;
    if CleanAbsolute(p) {
      if p == "/" {
        assert AllPlain([]) && p == PathOf([]);
      } else {
        var names := HasNames(p);
        JoinedIsTidy(names);
        JoinedBegins(names);
        assert AllPlain(names) && p == PathOf(names);
      }
    }
    if names :| AllPlain(names) && p == PathOf(names) && names != [] {
      PlainHasNoSlash(names);
      JoinedIsTidy(names);
      JoinedBegins(names);
    }
  }

  lemma PlainHasNoSlash(names: seq<string>)
    requires AllPlain(names)
    ensures forall n | n in names :: '/' !in n
  {
  }

  // A directory called account, at any depth.
  lemma {:induction false} AccountInside(names: seq<string>)
    requires forall n | n in names :: '/' !in n
    ensures Contains(Joined(names), "/account/") <==> exists i | 0 <= i < |names| - 1 :: names[i] == "account"
  {
    hide Contains;
    if names == [] {
      NothingIsTidy();
    } else {
      var rest := Joined(names[1..]);
      AccountInside(names[1..]);
      JoinedBegins(names[1..]);
      ContainsSplit(names[0], rest, "/account/");
      BeginsSplit(names[0], rest, "account");
      assert "/" + "account" + "/" == "/account/";
      assert forall i | 0 < i < |names| :: names[i] == names[1..][i - 1];
    }
  }

  lemma TwoNames(names: seq<string>, a: string, b: string)
    requires names != [] && (forall n | n in names :: '/' !in n) && '/' !in a && '/' !in b
    ensures Joined(names) == "/" + a + ("/" + b + "") <==> names == [a, b]
  {
    var rest := names[1..];
    JoinedBegins(rest);
    OneName(names[0], Joined(rest), a, "/" + b + "");
    if rest != [] {
      JoinedBegins(rest[1..]);
      OneName(rest[0], Joined(rest[1..]), b, "");
      assert names == [names[0], rest[0]] + rest[1..];
    }
  }

  lemma IdentityPath()
    ensures "/backup/identity.key" == "/" + "backup" + ("/" + "identity.key" + "")
    ensures '/' !in "backup" && '/' !in "identity.key"
  {
  }

  // The identity that opens the backups, under any root.
  lemma {:induction false} IdentityAtEnd(names: seq<string>)
    requires forall n | n in names :: '/' !in n
    ensures EndsWith(Joined(names), "/backup/identity.key") <==>
              |names| >= 2 && names[|names| - 2] == "backup" && names[|names| - 1] == "identity.key"
  {
    hide EndsWith;
    if names == [] {
      NothingIsTidy();
    } else {
      IdentityAtEnd(names[1..]);
      EndsSplit(names[0], Joined(names[1..]), "/backup/identity.key");
      IdentityPath();
      TwoNames(names, "backup", "identity.key");
      assert names == [names[0]] + names[1..];
    }
  }

  // A path is let through exactly when it is absolute and made of plain names,
  // none of them, but for the last, called account; does not end in the backups'
  // identity; and does not lie in the box's own account directory.
  lemma SafeMeans(p: string, state: string)
    ensures SafePath(p, state) <==>
              && !(state + "/account/" <= p)
              && exists names :: AllPlain(names) && p == PathOf(names) && Harmless(names)
  {
    hide Plain, CleanAbsolute;
    CleanMeans(p);
    forall names | AllPlain(names) && p == PathOf(names)
      ensures Harmless(names) <==> !Contains(p, "/account/") && !EndsWith(p, "/backup/identity.key")
    {
      PlainHasNoSlash(names);
      AccountInside(names);
      IdentityAtEnd(names);
      if names == [] {
        RootIsHarmless();
      }
    }
  }

  predicate Harmless(names: seq<string>) {
    && (forall i | 0 <= i < |names| - 1 :: names[i] != "account")
    && !(|names| >= 2 && names[|names| - 2] == "backup" && names[|names| - 1] == "identity.key")
  }

  lemma RootIsHarmless()
    ensures !Contains("/", "/account/") && !EndsWith("/", "/backup/identity.key")
  {
  }

  // The whole rule: every path is such a one, and none is named twice.
  lemma ItemsMean(items: seq<Item>, state: string)
    ensures SafeItems(items, state) <==>
              && (forall i, j | 0 <= i < j < |items| :: items[i].path != items[j].path)
              && forall it | it in items ::
                   && !(state + "/account/" <= it.path)
                   && exists names :: AllPlain(names) && it.path == PathOf(names) && Harmless(names)
  {
    hide SafePath;
    forall it | it in items
      ensures SafePath(it.path, state) <==>
                && !(state + "/account/" <= it.path)
                && exists names :: AllPlain(names) && it.path == PathOf(names) && Harmless(names)
    {
      SafeMeans(it.path, state);
    }
  }
}
