/** Which paths need an approval, in terms of their components and of the letters of their names. */
module PathRules {
  import opened Strings
  import opened ChangeTypes

  // ---------------------------------------------------------------- components

  /** The components once one more character is read. */
  function Extended(parts: seq<string>, c: char): seq<string>
    requires parts != []
  {
    if c == '/' then parts + [""] else parts[|parts| - 1 := parts[|parts| - 1] + [c]]
  }

  /** The text between the slashes. */
  function Components(path: string): (r: seq<string>)
    ensures r != []
  {
    if path == "" then [""]
    else
      var n := |path| - 1;
      Extended(Components(path[..n]), path[n])
  }

  function WithSlashes(parts: seq<string>): string
    requires parts != []
  {
    if |parts| == 1 then parts[0] else WithSlashes(parts[..|parts| - 1]) + "/" + parts[|parts| - 1]
  }

  lemma {:induction false} ComponentsRejoin(path: string)
    ensures WithSlashes(Components(path)) == path
  {
    if path != "" {
      var n := |path| - 1;
      var r, c := Components(path[..n]), path[n];
      ComponentsRejoin(path[..n]);
      assert path == path[..n] + [c];
      if c == '/' {
        assert (r + [""])[..|r|] == r;
        assert path[..n] + "/" + "" == path;
      } else {
        var last := r[|r| - 1];
        assert r[|r| - 1 := last + [c]][..|r| - 1] == r[..|r| - 1];
        if |r| > 1 {
          assert WithSlashes(r[..|r| - 1]) + "/" + (last + [c]) == WithSlashes(r[..|r| - 1]) + "/" + last + [c];
        }
      }
    }
  }

  lemma {:induction false} ComponentsSnoc(path: string, c: char)
    ensures Components(path + [c]) == Extended(Components(path), c)
  {
    assert (path + [c])[..|path|] == path;
  }

  lemma {:induction false} ExtendsLast(x: seq<string>, y: seq<string>, c: char)
    requires y != []
    ensures Extended(x + y, c) == x + Extended(y, c)
  {}

  lemma {:induction false} ComponentsJoin(a: string, b: string)
    ensures Components(a + "/" + b) == Components(a) + Components(b)
    decreases |b|
  {
    if b == "" {
      assert a + "/" + "" == a + ['/'];
      ComponentsSnoc(a, '/');
    } else {
      var n := |b| - 1;
      ComponentsJoin(a, b[..n]);
      assert a + "/" + b == (a + "/" + b[..n]) + [b[n]];
      ComponentsSnoc(a + "/" + b[..n], b[n]);
      ExtendsLast(Components(a), Components(b[..n]), b[n]);
    }
  }

  lemma {:induction false} SlashesJoin(a: seq<string>, b: seq<string>)
    requires a != [] && b != []
    ensures WithSlashes(a + b) == WithSlashes(a) + "/" + WithSlashes(b)
    decreases |b|
  {
    var n := |b| - 1;
    assert (a + b)[..|a + b| - 1] == a + b[..n];
    if n == 0 {
      assert a + b[..0] == a;
    } else {
      SlashesJoin(a, b[..n]);
      assert WithSlashes(a) + "/" + (WithSlashes(b[..n]) + "/" + b[n])
          == WithSlashes(a) + "/" + WithSlashes(b[..n]) + "/" + b[n];
    }
  }

  lemma {:induction false} LastComponent(path: string)
    ensures Name(path) == Components(path)[|Components(path)| - 1]
  {
    if path != "" {
      var n := |path| - 1;
      LastComponent(path[..n]);
      if path[n] != '/' {
        assert NameStart(path) == NameStart(path[..n]);
        assert path[NameStart(path)..] == path[..n][NameStart(path)..] + [path[n]];
      }
    }
  }

  /** The path is the place, or lies somewhere below it. */
  predicate Inside(path: string, place: string) {
    if place == "/" then path != "" && path[0] == '/' else Components(place) <= Components(path)
  }

  lemma {:induction false} RelativeMeansInside(path: string, root: string)
    ensures IsRelativeTo(path, root) <==> Inside(path, root)
  {
    var a, b := Components(root), Components(path);
    if root != "/" && StartsWith(path, root + "/") {
      assert path == root + "/" + path[|root| + 1..];
      ComponentsJoin(root, path[|root| + 1..]);
    }
    if root != "/" && a <= b {
      var rest := b[|a|..];
      assert b == a + rest;
      ComponentsRejoin(path);
      ComponentsRejoin(root);
      if rest == [] { assert b == a; } else { SlashesJoin(a, rest); }
    }
  }

  // ---------------------------------------------------------------- names

  /** The name is the word, its letters in capitals or not. */
  predicate Spells(name: string, word: string) {
    |name| == |word| && forall i | 0 <= i < |word| :: SameLetter(name[i], word[i])
  }

  predicate SameLetter(c: char, letter: char) {
    c == letter || ('A' <= c <= 'Z' && c as int - 'A' as int == letter as int - 'a' as int)
  }

  predicate InSmallLetters(word: string) {
    forall i | 0 <= i < |word| :: !('A' <= word[i] <= 'Z')
  }

  lemma {:induction false} LowerSpells(name: string, word: string)
    requires InSmallLetters(word)
    ensures Lower(name) == word <==> Spells(name, word)
  {
    if Spells(name, word) {
      forall i | 0 <= i < |word| ensures Lower(name)[i] == word[i] { assert SameLetter(name[i], word[i]); }
    }
    if Lower(name) == word {
      forall i | 0 <= i < |word| ensures SameLetter(name[i], word[i]) { assert Lower(name)[i] == word[i]; }
    }
  }

  lemma {:induction false} LowerPart(name: string, i: nat, j: nat)
    requires i <= j <= |name|
    ensures Lower(name)[i..j] == Lower(name[i..j])
  {}

  predicate BeginsWith(name: string, word: string) {
    |word| <= |name| && Spells(name[..|word|], word)
  }

  predicate FinishesWith(name: string, word: string) {
    |word| <= |name| && Spells(name[|name| - |word|..], word)
  }

  lemma {:induction false} PrefixSpells(name: string, word: string)
    requires InSmallLetters(word)
    ensures StartsWith(Lower(name), word) <==> BeginsWith(name, word)
    ensures EndsWith(Lower(name), word) <==> FinishesWith(name, word)
  {
    if |word| <= |name| {
      LowerPart(name, 0, |word|);
      LowerSpells(name[..|word|], word);
      LowerPart(name, |name| - |word|, |name|);
      assert Lower(name)[|name| - |word|..|name|] == Lower(name)[|name| - |word|..];
      assert name[|name| - |word|..|name|] == name[|name| - |word|..];
      LowerSpells(name[|name| - |word|..], word);
      assert StartsWith(Lower(name), word) <==> Lower(name)[..|word|] == word;
    }
  }

  /** A configuration or compose file by its name, in whatever case it is written. */
  predicate GuardedName(name: string) {
    || Spells(name, ".env") || Spells(name, "dockerfile") || Spells(name, "compose.yaml") || Spells(name, "compose.yml")
    || (BeginsWith(name, "docker-compose") && (FinishesWith(name, ".yml") || FinishesWith(name, ".yaml")))
  }

  lemma {:induction false} NameMeans(name: string)
    ensures Lower(name) in {".env", "dockerfile"} || IsComposeName(Lower(name)) <==> GuardedName(name)
    ensures EndsWith(Lower(name), ".service") <==> FinishesWith(name, ".service")
  {
    LowerSpells(name, ".env");
    LowerSpells(name, "dockerfile");
    LowerSpells(name, "compose.yaml");
    LowerSpells(name, "compose.yml");
    PrefixSpells(name, "docker-compose");
    PrefixSpells(name, ".yml");
    PrefixSpells(name, ".yaml");
    PrefixSpells(name, ".service");
  }

  // ---------------------------------------------------------------- the rule

  /** A path is protected exactly when it lies at or below one of the roots or below `/etc`, when its last component
      names a configuration or compose file, or when it is a unit file somewhere below `/lib/systemd`. */
  lemma {:induction false} ProtectedExactly(path: string, roots: seq<string>)
    ensures var parts := Components(path);
            var name := parts[|parts| - 1];
            IsProtected(path, roots) <==>
              || (exists i | 0 <= i < |roots| :: Inside(path, roots[i]))
              || ["", "etc"] <= parts
              || GuardedName(name)
              || (["", "lib", "systemd"] <= parts && FinishesWith(name, ".service"))
  {
    LastComponent(path);
    NameMeans(Name(path));
    Places(path);
    forall i | 0 <= i < |roots| ensures IsRelativeTo(path, roots[i]) <==> Inside(path, roots[i]) {
      RelativeMeansInside(path, roots[i]);
    }
    assert IsRelativeTo(path, "/etc/systemd") ==> IsRelativeTo(path, "/etc");
  }

  lemma {:induction false} Places(path: string)
    ensures IsRelativeTo(path, "/etc") <==> ["", "etc"] <= Components(path)
    ensures IsRelativeTo(path, "/lib/systemd") <==> ["", "lib", "systemd"] <= Components(path)
    ensures IsRelativeTo(path, "/etc/systemd") ==> IsRelativeTo(path, "/etc")
  {
    RelativeMeansInside(path, "/etc");
    RelativeMeansInside(path, "/lib/systemd");
    RelativeMeansInside(path, "/etc/systemd");
    Placed("etc", "systemd");
    Placed("lib", "systemd");
    assert "/" + "etc" == "/etc" && "/" + "lib" == "/lib";
    assert "/etc" + "/" + "systemd" == "/etc/systemd" && "/lib" + "/" + "systemd" == "/lib/systemd";
    assert ["", "etc"] <= ["", "etc", "systemd"];
  }

  lemma {:induction false} Placed(a: string, b: string)
    requires '/' !in a && '/' !in b
    ensures Components("/" + a) == ["", a] && Components("/" + a + "/" + b) == ["", a, b]
  {
    PlainComponents("");
    PlainComponents(a);
    PlainComponents(b);
    ComponentsJoin("", a);
    ComponentsJoin("/" + a, b);
    assert "" + "/" + a == "/" + a;
  }

  lemma {:induction false} PlainComponents(s: string)
    requires '/' !in s
    ensures Components(s) == [s]
  {
    if s != "" {
      PlainComponents(s[..|s| - 1]);
      assert s == s[..|s| - 1] + [s[|s| - 1]];
    }
  }

  // ---------------------------------------------------------------- the paths of a request

  function PathsOf(files: seq<FileRequest>): seq<string> {
    seq(|files|, i requires 0 <= i < |files| => files[i].path)
  }

  /** An approval for a request covers each of its protected paths, as often as it is named, and no other path. */
  lemma {:induction false} CoversExactly(files: seq<FileRequest>, roots: seq<string>, path: string)
    ensures multiset(ProtectedPaths(files, roots))[path] ==
              if IsProtected(path, roots) then multiset(PathsOf(files))[path] else 0
  {
    if files != [] {
      var n := |files| - 1;
      CoversExactly(files[..n], roots, path);
      assert PathsOf(files) == PathsOf(files[..n]) + [files[n].path];
    }
  }

  /** A request needs no approval exactly when none of its paths is protected. */
  lemma {:induction false} NothingProtected(files: seq<FileRequest>, roots: seq<string>)
    ensures ProtectedPaths(files, roots) == [] <==>
              forall i | 0 <= i < |files| :: !IsProtected(files[i].path, roots)
  {
    if files != [] {
      var n := |files| - 1;
      NothingProtected(files[..n], roots);
      if ProtectedPaths(files, roots) == [] {
        forall i | 0 <= i < |files| ensures !IsProtected(files[i].path, roots) {
          assert i < n ==> files[..n][i] == files[i];
        }
      }
    }
  }
}
