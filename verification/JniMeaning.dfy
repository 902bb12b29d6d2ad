/** What the search for a class finds, search by search, said without the functions that search. */
module JniMeaning {
  import opened Wrappers
  import opened JniSignature

  /** The classes known by name: six of java.lang, the class itself, its inner classes. */
  function Known(ctx: Context): seq<string>
  {
    ["Ljava/lang/Boolean", "Ljava/lang/Integer", "Ljava/lang/Long", "Ljava/lang/Object", "Ljava/lang/String",
     "Ljava/lang/Class"] + [ctx.fullyQualifiedClass] + ctx.innerClasses
  }

  /** The qualified name is called so: by what follows a slash, by what follows a dollar, with dollars for dots,
      or in full. */
  ghost predicate Called(q: string, name: string)
  {
    || (exists p :: q == p + "/" + name) || q == "L" + name
    || (exists p, n :: q == p + "$" + n && Dollars(n, name))
  }

  predicate Dollars(n: string, name: string)
  {
    |n| == |name| && forall i :: 0 <= i < |n| ==> n[i] == if name[i] == '.' then '$' else name[i]
  }

  /** The k-th is the first of the names to be called so. */
  ghost predicate IsFirst(names: seq<string>, name: string, k: nat)
  {
    k < |names| && Called(names[k], name) && forall i :: 0 <= i < k ==> !Called(names[i], name)
  }

  ghost predicate Unknown(ctx: Context, name: string)
  {
    '/' !in name && forall i :: 0 <= i < |Known(ctx)| ==> !Called(Known(ctx)[i], name)
  }

  ghost predicate Imported(q: string, name: string)
  {
    exists p :: q == p + "/" + name
  }

  ghost predicate NotImported(ctx: Context, name: string)
  {
    forall i :: 0 <= i < |ctx.imports| ==> !Imported(ctx.imports[i], name)
  }

  lemma DollarsMeans(n: string, name: string)
    ensures Dollars(n, name) <==> n == Replace(name, '.', '$')
  {
    ReplaceMeans(name, '.', '$');
  }

  /** A text ends in a character and a name. */
  lemma EndsIn(q: string, c: char, name: string)
    ensures EndsWith(q, [c] + name) <==> exists p :: q == p + [c] + name
  {
    hide EndsWith;
    EndsWithMeans(q, [c] + name);
    if p :| q == p + ([c] + name) {
      assert q == p + [c] + name;
    }
    if p :| q == p + [c] + name {
      assert q == p + ([c] + name);
    }
  }

  lemma NamesMeans(q: string, name: string)
    ensures Names(q, name) <==> Called(q, name)
  {
    hide EndsWith, Replace, Dollars;
    var d := Replace(name, '.', '$');
    DollarsMeans(d, name);
    EndsIn(q, '/', name);
    EndsIn(q, '$', d);
    if p, n :| q == p + "$" + n && Dollars(n, name) {
      DollarsMeans(n, name);
    }
  }

  lemma ImportedMeans(q: string, name: string)
    ensures EndsWith(q, "/" + name) <==> Imported(q, name)
  {
    hide EndsWith;
    EndsIn(q, '/', name);
  }

  lemma {:induction false} FirstNamed(names: seq<string>, name: string, k: nat)
    requires k <= |names| && forall i :: 0 <= i < k ==> !Called(names[i], name)
    requires k < |names| ==> Called(names[k], name)
    ensures FirstNaming(names, name) == if k < |names| then Some(names[k]) else None
    decreases |names|
  {
    hide Called, Names;
    if names != [] {
      NamesMeans(names[0], name);
      if k > 0 {
        FirstNamed(names[1..], name, k - 1);
      }
    }
  }

  lemma {:induction false} FirstImported(names: seq<string>, name: string, k: nat)
    requires k <= |names| && forall i :: 0 <= i < k ==> !Imported(names[i], name)
    requires k < |names| ==> Imported(names[k], name)
    ensures FirstEnding(names, "/" + name) == if k < |names| then Some(names[k]) else None
    decreases |names|
  {
    hide Imported, EndsWith;
    if names != [] {
      ImportedMeans(names[0], name);
      if k > 0 {
        FirstImported(names[1..], name, k - 1);
      }
    }
  }

  /** A name with a slash is taken as it is; the first known class called by the name is the one. */
  lemma KnownIsFound(ctx: Context, name: string, k: nat)
    ensures '/' in name ==> Qualify(ctx, name) == Success("L" + name)
    ensures '/' !in name && IsFirst(Known(ctx), name, k) ==> Qualify(ctx, name) == Success(Known(ctx)[k])
  {
    hide Called, FirstNaming, FirstEnding, CheckImport, Split, Join;
    if '/' !in name && IsFirst(Known(ctx), name, k) {
      FirstNamed(Known(ctx), name, k);
    }
  }

  /** If there is none, the first import that ends in the name, unless it looks like an inner class. */
  lemma ImportIsFound(ctx: Context, name: string, k: nat)
    requires Unknown(ctx, name) && k < |ctx.imports| && Imported(ctx.imports[k], name)
    requires forall i :: 0 <= i < k ==> !Imported(ctx.imports[i], name)
    ensures Qualify(ctx, name) == CheckImport(ctx.imports[k])
  {
    hide Called, Imported, FirstNaming, FirstEnding, CheckImport, Split, Join;
    FirstNamed(Known(ctx), name, |Known(ctx)|);
    FirstImported(ctx.imports, name, k);
  }

  /** An import is refused if its last component but one starts with a capital, or is empty. */
  lemma ImportChecked(front: string, middle: string, last: string)
    requires '/' !in middle && '/' !in last
    ensures var q := front + "/" + middle + "/" + last;
            CheckImport(q) ==
            if middle == "" then Failure(EmptyComponent)
            else if 'A' <= middle[0] <= 'Z' then Failure(InnerClassImported)
            else Success(q)
    ensures '/' !in front ==> CheckImport(front + "/" + last) == Success(front + "/" + last)
  {
    hide Split;
    assert front + "/" + middle == front + ['/'] + middle;
    assert front + "/" + middle + "/" + last == front + "/" + middle + ['/'] + last;
    SplitAround(front + "/" + middle, last, '/');
    SplitAround(front, middle, '/');
    SplitWhole(middle, '/');
    SplitWhole(last, '/');
    if '/' !in front {
      SplitWhole(front, '/');
      SplitAround(front, last, '/');
      assert front + "/" + last == front + ['/'] + last;
    }
  }

  /** If there is no import either: an inner class of the first import that ends in what is before the last dot,
      with slashes for dots; else a class of the package. */
  lemma OuterIsFound(ctx: Context, outer: string, inner: string, k: nat)
    requires '.' !in inner && Unknown(ctx, outer + "." + inner) && NotImported(ctx, outer + "." + inner)
    requires k <= |ctx.imports| && forall i :: 0 <= i < k ==> !Imported(ctx.imports[i], Replace(outer, '.', '/'))
    requires k < |ctx.imports| ==> Imported(ctx.imports[k], Replace(outer, '.', '/'))
    ensures Qualify(ctx, outer + "." + inner) ==
            Success(if k < |ctx.imports| then ctx.imports[k] + "$" + inner
                    else "L" + ctx.package + "/" + outer + "." + inner)
  {
    hide Called, Imported, FirstNaming, FirstEnding, CheckImport, Split, Join, Replace, Called;
    var name := outer + "." + inner;
    assert name == outer + ['.'] + inner && name[|outer|] == '.';
    FirstNamed(Known(ctx), name, |Known(ctx)|);
    FirstImported(ctx.imports, name, |ctx.imports|);
    SplitAround(outer, inner, '.');
    SplitWhole(inner, '.');
    var parts := Split(name, '.');
    assert parts == Split(outer, '.') + [inner] && parts[..|parts| - 1] == Split(outer, '.');
    JoinReplaces(outer, '.', '/');
    FirstImported(ctx.imports, Replace(outer, '.', '/'), k);
    assert "L" + ctx.package + "/" + name == "L" + ctx.package + "/" + outer + "." + inner;
  }

  /** Splitting at one character and joining with another replaces it. */
  lemma {:induction false} JoinReplaces(s: string, sep: char, sub: char)
    ensures Join(Split(s, sep), [sub]) == Replace(s, sep, sub)
    decreases |s|
  {
    hide Split, Join;
    SplitStep(s, sep);
    if s == "" {
      JoinOne("", [sub]);
    } else {
      JoinReplaces(s[1..], sep, sub);
      var rest := Split(s[1..], sep);
      if s[0] == sep {
        JoinMore("", rest, [sub]);
        assert "" + [sub] + Replace(s[1..], sep, sub) == Replace(s, sep, sub);
      } else if |rest| == 1 {
        assert rest == [rest[0]] && [[s[0]] + rest[0]] + rest[1..] == [[s[0]] + rest[0]];
        JoinOne(rest[0], [sub]);
        JoinOne([s[0]] + rest[0], [sub]);
      } else {
        assert rest == [rest[0]] + rest[1..];
        JoinMore(rest[0], rest[1..], [sub]);
        JoinMore([s[0]] + rest[0], rest[1..], [sub]);
        var tail := Join(rest[1..], [sub]);
        assert [s[0]] + rest[0] + [sub] + tail == [s[0]] + (rest[0] + [sub] + tail);
      }
    }
  }

  /** And without a dot, a class of the package. */
  lemma PackageIsLast(ctx: Context, name: string)
    requires Unknown(ctx, name) && NotImported(ctx, name) && '.' !in name
    ensures Qualify(ctx, name) == Success("L" + ctx.package + "/" + name)
  {
    hide Called, Imported, FirstNaming, FirstEnding, CheckImport, Split, Join;
    FirstNamed(Known(ctx), name, |Known(ctx)|);
    FirstImported(ctx.imports, name, |ctx.imports|);
  }
}
