/** JniParams: Java type names into method descriptors (section 4.3.3 of the Java Virtual Machine
    Specification). */
module JniSignature {
  import opened Wrappers

  /** The exceptions JavaToJni can raise: for an imported inner class, and for an import with an empty
      component. */
  datatype JniError = InnerClassImported | EmptyComponent

  /** JniParams' class-level state. Qualified names carry their leading L. */
  datatype Context = Context(fullyQualifiedClass: string, package: string, innerClasses: seq<string>,
                             imports: seq<string>)

  // Python's string operations.

  predicate EndsWith(s: string, t: string)
  {
    |t| <= |s| && s[|s| - |t|..] == t
  }

  function Replace(s: string, a: char, b: char): string
  {
    if s == "" then "" else [if s[0] == a then b else s[0]] + Replace(s[1..], a, b)
  }

  function Split(s: string, sep: char): (parts: seq<string>)
    ensures parts != []
  {
    if s == "" then [""]
    else
      var rest := Split(s[1..], sep);
      if s[0] == sep then [""] + rest else [[s[0]] + rest[0]] + rest[1..]
  }

  function Join(parts: seq<string>, sep: string): string
  {
    if parts == [] then "" else if |parts| == 1 then parts[0] else parts[0] + sep + Join(parts[1..], sep)
  }

  /** s.index(c), where c is known to occur. */
  function Before(s: string, c: char): string
  {
    if s == "" || s[0] == c then "" else [s[0]] + Before(s[1..], c)
  }

  // Types.

  /** A resolved type: an array depth, and a primitive's code or a class name without L and semicolon. */
  datatype Base = Code(c: char) | Class(name: string)

  datatype JniType = JniType(depth: nat, base: Base)

  function Primitive(name: string): Option<char>
  {
    if name == "int" then Some('I')
    else if name == "boolean" then Some('Z')
    else if name == "char" then Some('C')
    else if name == "short" then Some('S')
    else if name == "long" then Some('J')
    else if name == "double" then Some('D')
    else if name == "float" then Some('F')
    else if name == "byte" then Some('B')
    else if name == "void" then Some('V')
    else None
  }

  /** The specification's table of base types, from code to keyword, and void (section 4.3.2, 4.3.3). */
  function Keyword(code: char): string
  {
    match code
    case 'B' => "byte"
    case 'C' => "char"
    case 'D' => "double"
    case 'F' => "float"
    case 'I' => "int"
    case 'J' => "long"
    case 'S' => "short"
    case 'Z' => "boolean"
    case 'V' => "void"
    case _ => ""
  }

  const KEYWORDS: set<string> := {"byte", "char", "double", "float", "int", "long", "short", "boolean", "void"}

  /** The map from names to codes is the table read backwards. */
  lemma PrimitiveIsKeyword(name: string, code: char)
    ensures Primitive(name) == Some(code) <==> name != "" && Keyword(code) == name
    ensures Primitive(name).Some? <==> name in KEYWORDS
  {
  }

  const OBJECT_PARAMS: seq<string> := [
    "Ljava/lang/Boolean", "Ljava/lang/Integer", "Ljava/lang/Long",
    "Ljava/lang/Object", "Ljava/lang/String", "Ljava/lang/Class"]

  function Brackets(n: nat): string
  {
    if n == 0 then "" else "[" + Brackets(n - 1)
  }

  function PrintBase(b: Base): string
  {
    match b
    case Code(c) => [c]
    case Class(name) => "L" + name + ";"
  }

  function Print(t: JniType): string
  {
    Brackets(t.depth) + PrintBase(t.base)
  }

  /** The pairs of brackets at the end of a type name. */
  function Depth(param: string): nat
  {
    if EndsWith(param, "[]") then 1 + Depth(param[..|param| - 2]) else 0
  }

  function WithoutArrays(param: string): string
  {
    if EndsWith(param, "[]") then WithoutArrays(param[..|param| - 2]) else param
  }

  function WithoutGeneric(param: string): string
  {
    if '<' in param then Before(param, '<') else param
  }

  /** A type name without its brackets and what follows a '<'. */
  function BareName(param: string): string
  {
    WithoutGeneric(WithoutArrays(param))
  }

  /** The test on the known qualified names. */
  predicate Names(qualified: string, param: string)
  {
    EndsWith(qualified, "/" + param) || EndsWith(qualified, "$" + Replace(param, '.', '$')) || qualified == "L" + param
  }

  function FirstNaming(names: seq<string>, param: string): Option<string>
  {
    if names == [] then None else if Names(names[0], param) then Some(names[0]) else FirstNaming(names[1..], param)
  }

  function FirstEnding(names: seq<string>, suffix: string): Option<string>
  {
    if names == [] then None else if EndsWith(names[0], suffix) then Some(names[0]) else FirstEnding(names[1..], suffix)
  }

  predicate IsUpper(c: char)
  {
    'A' <= c <= 'Z'
  }

  /** An import whose last but one component starts with a capital is an inner class. */
  function CheckImport(qualified: string): Result<string, JniError>
  {
    var parts := Split(qualified, '/');
    if |parts| <= 2 then Success(qualified)
    else if parts[|parts| - 2] == "" then Failure(EmptyComponent)
    else if IsUpper(parts[|parts| - 2][0]) then Failure(InnerClassImported)
    else Success(qualified)
  }

  /** The class a name stands for, with its L. */
  function Qualify(ctx: Context, param: string): Result<string, JniError>
  {
    if '/' in param then Success("L" + param)
    else
      var known := FirstNaming(OBJECT_PARAMS + [ctx.fullyQualifiedClass] + ctx.innerClasses, param);
      var imported := FirstEnding(ctx.imports, "/" + param);
      if known.Some? then Success(known.value)
      else if imported.Some? then CheckImport(imported.value)
      else if '.' in param then (
        var parts := Split(param, '.');
        var outer := FirstEnding(ctx.imports, "/" + Join(parts[..|parts| - 1], "/"));
        if outer.Some? then Success(outer.value + "$" + parts[|parts| - 1])
          else Success("L" + ctx.package + "/" + param)
      ) else Success("L" + ctx.package + "/" + param)
  }

  /** What a type name means. */
  function Resolve(ctx: Context, param: string): Result<JniType, JniError>
    requires Sane(ctx)
  {
    var name := BareName(param);
    if Primitive(name).Some? then Success(JniType(Depth(param), Code(Primitive(name).value)))
    else match Qualify(ctx, name)
      case Failure(e) => Failure(e)
      case Success(q) => QualifiedHasL(ctx, name); Success(JniType(Depth(param), Class(q[1..])))
  }

  /** The state SetFullyQualifiedClass and ExtractImportsAndInnerClasses leave (see JniParams below): the
      class names are an L and a name, an import is an L and what was imported. */
  predicate Sane(ctx: Context)
  {
    && HasL(ctx.fullyQualifiedClass)
    && (forall i :: 0 <= i < |ctx.innerClasses| ==> HasL(ctx.innerClasses[i]))
    && (forall i :: 0 <= i < |ctx.imports| ==> "L" <= ctx.imports[i])
  }

  predicate HasL(q: string)
  {
    |q| >= 2 && q[0] == 'L'
  }

  lemma {:induction false} FirstNamingIn(names: seq<string>, param: string)
    ensures var r := FirstNaming(names, param); r.Some? ==> r.value in names && Names(r.value, param)
    ensures FirstNaming(names, param).None? ==> forall q :: q in names ==> !Names(q, param)
    decreases |names|
  {
    hide Names;
    if names != [] {
      FirstNamingIn(names[1..], param);
    }
  }

  lemma {:induction false} FirstEndingIn(names: seq<string>, suffix: string)
    ensures var r := FirstEnding(names, suffix); r.Some? ==> r.value in names && EndsWith(r.value, suffix)
    decreases |names|
  {
    hide EndsWith;
    if names != [] {
      FirstEndingIn(names[1..], suffix);
    }
  }

  lemma QualifiedHasL(ctx: Context, param: string)
    requires Sane(ctx) && Qualify(ctx, param).Success?
    ensures HasL(Qualify(ctx, param).v)
  {
    hide Names, EndsWith, Split, Join, FirstNaming, FirstEnding;
    FirstNamingIn(OBJECT_PARAMS + [ctx.fullyQualifiedClass] + ctx.innerClasses, param);
    FirstEndingIn(ctx.imports, "/" + param);
    var parts := Split(param, '.');
    FirstEndingIn(ctx.imports, "/" + Join(parts[..|parts| - 1], "/"));
    forall q: string, rest: string | q in ctx.imports && EndsWith(q, "/" + rest)
      ensures HasL(q)
    {
      EndsLater(q, "/" + rest);
    }
  }

  /** What starts with an L and ends in a suffix that starts otherwise is longer than that. */
  lemma EndsLater(q: string, suffix: string)
    requires "L" <= q && suffix != "" && suffix[0] != 'L' && EndsWith(q, suffix)
    ensures |q| >= 2
  {
    assert q[|q| - |suffix|..][0] == suffix[0];
  }

  /** The class-level state. */
  class JniParams {
    var fullyQualifiedClass: string
    var package: string
    var innerClasses: seq<string>
    var imports: seq<string>

    function View(): Context
      reads this
    {
      Context(fullyQualifiedClass, package, innerClasses, imports)
    }

    constructor ()
      ensures View() == Context("", "", [], [])
    {
      fullyQualifiedClass, package, innerClasses, imports := "", "", [], [];
    }

    method SetFullyQualifiedClass(name: string)
      modifies this
      ensures fullyQualifiedClass == "L" + name && innerClasses == old(innerClasses) && imports == old(imports)
      ensures '/' !in name ==> package == ""
      ensures '/' in name ==> exists simple :: '/' !in simple && name == package + "/" + simple
      ensures name != "" && innerClasses == [] && imports == [] ==> Sane(View())
    {
      hide Split, Join;
      PackageIsRest(name);
      fullyQualifiedClass := "L" + name;
      var parts := Split(name, '/');
      package := Join(parts[..|parts| - 1], "/");
    }

    /** For the names the two patterns match in a source text. A match that the class itself ends with is
        no inner class. */
    method ExtractImportsAndInnerClasses(imported: seq<string>, declared: seq<string>)
      requires Sane(View())
      modifies this
      ensures Sane(View()) && fullyQualifiedClass == old(fullyQualifiedClass) && package == old(package)
      ensures imports == old(imports) + Imports(imported)
      ensures |Imports(imported)| == |imported|
      ensures forall i :: 0 <= i < |imported| ==> Imports(imported)[i] == "L" + Replace(imported[i], '.', '/')
      ensures innerClasses == old(innerClasses) + Inners(fullyQualifiedClass, declared)
      ensures forall d :: d in declared && !EndsWith(fullyQualifiedClass, d) ==>
                fullyQualifiedClass + "$" + d in Inners(fullyQualifiedClass, declared)
      ensures forall q :: q in Inners(fullyQualifiedClass, declared) ==>
                exists d :: d in declared && !EndsWith(fullyQualifiedClass, d) && q == fullyQualifiedClass + "$" + d
    {
      hide EndsWith, Replace, Imports, Inners;
      ImportsAre(imported);
      InnersAre(fullyQualifiedClass, declared);
      NothingExtracted(fullyQualifiedClass);
      var i := 0;
      assert imported[..0] == [] && imported[..|imported|] == imported;
      while i < |imported|
        invariant i <= |imported| && imports == old(imports) + Imports(imported[..i]) && Sane(View())
        invariant fullyQualifiedClass == old(fullyQualifiedClass) && package == old(package) &&
                  innerClasses == old(innerClasses)
      {
        ImportsNext(imported, i);
        imports := imports + ["L" + Replace(imported[i], '.', '/')];
        i := i + 1;
      }
      i := 0;
      assert declared[..0] == [] && declared[..|declared|] == declared;
      while i < |declared|
        invariant i <= |declared| && innerClasses == old(innerClasses) + Inners(fullyQualifiedClass, declared[..i]) &&
                  Sane(View())
        invariant fullyQualifiedClass == old(fullyQualifiedClass) && package == old(package)
        invariant imports == old(imports) + Imports(imported)
      {
        InnersNext(fullyQualifiedClass, declared, i);
        if !EndsWith(fullyQualifiedClass, declared[i]) {
          innerClasses := innerClasses + [fullyQualifiedClass + "$" + declared[i]];
        }
        i := i + 1;
      }
    }
  }

  function Imports(imported: seq<string>): seq<string>
    decreases |imported|
  {
    if imported == [] then []
    else Imports(imported[..|imported| - 1]) + ["L" + Replace(imported[|imported| - 1], '.', '/')]
  }

  function Inners(outer: string, declared: seq<string>): seq<string>
    decreases |declared|
  {
    if declared == [] then []
    else
      var last := declared[|declared| - 1];
      Inners(outer, declared[..|declared| - 1]) + if EndsWith(outer, last) then [] else [outer + "$" + last]
  }

  lemma NothingExtracted(outer: string)
    ensures Imports([]) == [] && Inners(outer, []) == []
  {
  }

  lemma {:induction false} ImportsAre(imported: seq<string>)
    ensures |Imports(imported)| == |imported|
    ensures forall i :: 0 <= i < |imported| ==> Imports(imported)[i] == "L" + Replace(imported[i], '.', '/')
    decreases |imported|
  {
    hide Replace;
    if imported != [] {
      ImportsAre(imported[..|imported| - 1]);
    }
  }

  /** A declared name is added as an inner class exactly when the class itself does not end in it. */
  lemma {:induction false} InnersAre(outer: string, declared: seq<string>)
    ensures forall d :: d in declared && !EndsWith(outer, d) ==> outer + "$" + d in Inners(outer, declared)
    ensures forall q :: q in Inners(outer, declared) ==>
              exists d :: d in declared && !EndsWith(outer, d) && q == outer + "$" + d
    decreases |declared|
  {
    hide EndsWith;
    if declared != [] {
      var rest, last := declared[..|declared| - 1], declared[|declared| - 1];
      InnersAre(outer, rest);
      assert forall d :: d in declared <==> d in rest || d == last;
    }
  }

  lemma ImportsNext(imported: seq<string>, i: nat)
    requires i < |imported|
    ensures Imports(imported[..i + 1]) == Imports(imported[..i]) + ["L" + Replace(imported[i], '.', '/')]
  {
    assert imported[..i + 1][..i] == imported[..i];
  }

  lemma InnersNext(outer: string, declared: seq<string>, i: nat)
    requires i < |declared|
    ensures Inners(outer, declared[..i + 1]) ==
            Inners(outer, declared[..i]) + if EndsWith(outer, declared[i]) then [] else [outer + "$" + declared[i]]
  {
    assert declared[..i + 1][..i] == declared[..i];
  }

  // The loops of JavaToJni.

  method JavaToJni(ctx: Context, datatype_: string) returns (r: Result<string, JniError>)
    requires Sane(ctx)
    ensures match Resolve(ctx, datatype_)
            case Success(t) => r == Success(Print(t))
            case Failure(e) => r == Failure(e)
    ensures BareName(datatype_) in KEYWORDS ==>
              r.Success? && |r.v| == Depth(datatype_) + 1 && Keyword(r.v[Depth(datatype_)]) == BareName(datatype_)
    ensures BareName(datatype_) !in KEYWORDS && r.Success? ==>
              |r.v| > Depth(datatype_) + 1 && r.v[Depth(datatype_)] == 'L' && r.v[|r.v| - 1] == ';'
    ensures r.Success? ==> forall i :: 0 <= i < Depth(datatype_) ==> r.v[i] == '['
  {
    hide Names, CheckImport, Primitive, Before, Keyword, KEYWORDS;
    BracketsAre(Depth(datatype_));
    var param, prefix := datatype_, "";
    ghost var n := 0;
    while EndsWith(param, "[]")
      invariant prefix == Brackets(n) && n + Depth(param) == Depth(datatype_)
      invariant WithoutArrays(param) == WithoutArrays(datatype_)
      decreases |param|
    {
      BracketsNext(n);
      prefix := prefix + "[";
      param := param[..|param| - 2];
      n := n + 1;
    }
    if '<' in param {
      param := Before(param, '<');
    }
    if Primitive(param).Some? {
      PrimitiveIsKeyword(param, Primitive(param).value);
      return Success(prefix + [Primitive(param).value]);
    }
    PrimitiveIsKeyword(param, 'V');
    var q := FindClass(ctx, param);
    match q
    case Failure(e) => r := Failure(e);
    case Success(name) =>
      QualifiedHasL(ctx, param);
      assert "L" + name[1..] == name;
      assert prefix + (name + ";") == prefix + name + ";";
      r := Success(prefix + name + ";");
  }

  lemma {:induction false} BracketsAre(n: nat)
    ensures |Brackets(n)| == n && forall i :: 0 <= i < n ==> Brackets(n)[i] == '['
    decreases n
  {
    if n > 0 {
      BracketsAre(n - 1);
    }
  }

  lemma BracketsNext(n: nat)
    ensures Brackets(n) + "[" == Brackets(n + 1)
  {
    if n > 0 {
      BracketsNext(n - 1);
      assert "[" + Brackets(n - 1) + "[" == "[" + (Brackets(n - 1) + "[");
    }
  }

  method FindClass(ctx: Context, param: string) returns (r: Result<string, JniError>)
    ensures r == Qualify(ctx, param)
  {
    hide Names, CheckImport, EndsWith, Split, Join;
    if '/' in param {
      return Success("L" + param);
    }
    var known := OBJECT_PARAMS + [ctx.fullyQualifiedClass] + ctx.innerClasses;
    var i := 0;
    assert known[0..] == known && ctx.imports[0..] == ctx.imports;
    while i < |known|
      invariant i <= |known| && FirstNaming(known, param) == FirstNaming(known[i..], param)
    {
      if Names(known[i], param) {
        return Success(known[i]);
      }
      i := i + 1;
    }
    i := 0;
    while i < |ctx.imports|
      invariant i <= |ctx.imports| &&
                FirstEnding(ctx.imports, "/" + param) == FirstEnding(ctx.imports[i..], "/" + param)
    {
      if EndsWith(ctx.imports[i], "/" + param) {
        return CheckImport(ctx.imports[i]);
      }
      i := i + 1;
    }
    if '.' in param {
      var parts := Split(param, '.');
      var outer, inner := Join(parts[..|parts| - 1], "/"), parts[|parts| - 1];
      i := 0;
      while i < |ctx.imports|
        invariant i <= |ctx.imports| &&
                  FirstEnding(ctx.imports, "/" + outer) == FirstEnding(ctx.imports[i..], "/" + outer)
      {
        if EndsWith(ctx.imports[i], "/" + outer) {
          return Success(ctx.imports[i] + "$" + inner);
        }
        i := i + 1;
      }
    }
    return Success("L" + ctx.package + "/" + param);
  }

  // Class names in internal form (section 4.2.1): identifiers joined by slashes, each not empty and without
  // the characters . ; [ / (section 4.2.2).

  predicate IsIdentifier(part: string)
  {
    part != "" && '.' !in part && ';' !in part && '[' !in part && '/' !in part
  }

  predicate IsInternalName(name: string)
  {
    forall i :: 0 <= i < |Split(name, '/')| ==> IsIdentifier(Split(name, '/')[i])
  }

  lemma {:induction false} SplitAround(a: string, b: string, sep: char)
    ensures Split(a + [sep] + b, sep) == Split(a, sep) + Split(b, sep)
    decreases |a|
  {
    hide Split;
    var s := a + [sep] + b;
    SplitStep(s, sep);
    SplitStep(a, sep);
    if a == "" {
      assert s[1..] == b;
    } else {
      assert s[1..] == a[1..] + [sep] + b && s[0] == a[0];
      SplitAround(a[1..], b, sep);
      var x, y := Split(a[1..], sep), Split(b, sep);
      assert (x + y)[0] == x[0] && (x + y)[1..] == x[1..] + y;
    }
  }

  lemma SplitStep(s: string, sep: char)
    ensures s == "" ==> Split(s, sep) == [""]
    ensures s != "" && s[0] == sep ==> Split(s, sep) == [""] + Split(s[1..], sep)
    ensures s != "" && s[0] != sep ==>
              var rest := Split(s[1..], sep); Split(s, sep) == [[s[0]] + rest[0]] + rest[1..]
  {
  }

  lemma {:induction false} SplitWhole(s: string, sep: char)
    requires sep !in s
    ensures Split(s, sep) == [s]
    decreases |s|
  {
    if s != "" {
      assert s[0] in s && forall c :: c in s[1..] ==> c in s;
      SplitWhole(s[1..], sep);
      assert [s[0]] + s[1..] == s;
    }
  }

  /** Text without separators goes to the last part. */
  lemma {:induction false} SplitTail(a: string, c: string, sep: char)
    requires sep !in c
    ensures var parts := Split(a, sep);
            Split(a + c, sep) == parts[..|parts| - 1] + [parts[|parts| - 1] + c]
    decreases |a|
  {
    hide Split;
    SplitStep(a, sep);
    SplitStep(a + c, sep);
    if a == "" {
      assert a + c == c && "" + c == c;
      SplitWhole(c, sep);
    } else {
      assert (a + c)[1..] == a[1..] + c && (a + c)[0] == a[0];
      SplitTail(a[1..], c, sep);
      var rest, parts := Split(a[1..], sep), Split(a, sep);
      if a[0] != sep && |rest| == 1 {
        assert [a[0]] + (rest[0] + c) == [a[0]] + rest[0] + c;
      }
    }
  }

  /** A character of the text is the separator or in a part, and one of a part is in the text. */
  lemma {:induction false} SplitKeeps(s: string, sep: char, c: char)
    requires c != sep
    ensures c in s <==> exists i :: 0 <= i < |Split(s, sep)| && c in Split(s, sep)[i]
    decreases |s|
  {
    if s != "" {
      SplitKeeps(s[1..], sep, c);
      var rest, parts := Split(s[1..], sep), Split(s, sep);
      assert c in s <==> c == s[0] || c in s[1..];
      if s[0] == sep {
        assert forall i :: 0 <= i < |rest| ==> parts[i + 1] == rest[i];
      } else {
        assert parts[0] == [s[0]] + rest[0];
        assert forall i :: 1 <= i < |rest| ==> parts[i] == rest[i];
        if c == s[0] {
          assert c in parts[0];
        }
        if i :| 0 <= i < |rest| && c in rest[i] {
          assert c in parts[i];
        }
      }
    }
  }

  lemma {:induction false} NoSeparatorInParts(s: string, sep: char)
    ensures forall i :: 0 <= i < |Split(s, sep)| ==> sep !in Split(s, sep)[i]
    decreases |s|
  {
    if s != "" {
      NoSeparatorInParts(s[1..], sep);
    }
  }

  lemma InternalHasNo(name: string)
    requires IsInternalName(name)
    ensures '.' !in name && ';' !in name && '[' !in name && name != ""
  {
    SplitKeeps(name, '/', '.');
    SplitKeeps(name, '/', ';');
    SplitKeeps(name, '/', '[');
    assert IsIdentifier(Split(name, '/')[0]);
  }

  lemma InternalJoin(a: string, b: string)
    ensures IsInternalName(a + "/" + b) <==> IsInternalName(a) && IsInternalName(b)
  {
    hide Split, IsIdentifier;
    var x, y := Split(a, '/'), Split(b, '/');
    SplitAround(a, b, '/');
    assert a + ['/'] + b == a + "/" + b;
    assert forall i :: 0 <= i < |x| ==> (x + y)[i] == x[i];
    assert forall i :: 0 <= i < |y| ==> (x + y)[|x| + i] == y[i];
  }

  lemma SimpleInternal(s: string)
    requires '/' !in s
    ensures IsInternalName(s) <==> IsIdentifier(s)
  {
    hide IsIdentifier;
    SplitWhole(s, '/');
    assert Split(s, '/')[0] == s;
  }

  /** More text after the last identifier. */
  lemma InternalTail(a: string, c: string)
    requires IsInternalName(a) && '/' !in c
    ensures IsInternalName(a + c) <==> '.' !in c && ';' !in c && '[' !in c
  {
    hide Split;
    SplitTail(a, c, '/');
    var x, y := Split(a, '/'), Split(a + c, '/');
    var last := |x| - 1;
    assert IsIdentifier(x[last]) && y[last] == x[last] + c;
    assert forall i :: 0 <= i < last ==> y[i] == x[i];
    assert IsIdentifier(y[last]) <==> '.' !in c && ';' !in c && '[' !in c;
  }

  lemma {:induction false} InternalParts(parts: seq<string>)
    requires parts != [] && forall i :: 0 <= i < |parts| ==> IsIdentifier(parts[i])
    ensures IsInternalName(Join(parts, "/"))
    decreases |parts|
  {
    hide IsInternalName, Split;
    if |parts| == 1 {
      SimpleInternal(parts[0]);
    } else {
      InternalParts(parts[1..]);
      SimpleInternal(parts[0]);
      InternalJoin(parts[0], Join(parts[1..], "/"));
    }
  }

  // The grammar of descriptors.

  const MAX_DIMENSIONS := 255

  const BASE_CODES := "BCDFIJSZ"

  /** A FieldType that is not an array, at the start of s: the type and the rest. */
  function ParseBase(s: string): Option<(Base, string)>
  {
    if s == "" then None
    else if s[0] in BASE_CODES then Some((Code(s[0]), s[1..]))
    else if s[0] == 'L' && ';' in s then (
      var name := Before(s[1..], ';');
      if !IsInternalName(name) || |name| + 2 > |s| then None else Some((Class(name), s[|name| + 2..]))
    )
    else None
  }

  /** A FieldType: ArrayTypes nest, 255 deep at most. */
  function ParseType(s: string): Option<(JniType, string)>
    decreases |s|
  {
    if s != "" && s[0] == '[' then
      match ParseType(s[1..])
      case None => None
      case Some((t, rest)) => if t.depth < MAX_DIMENSIONS then Some((JniType(t.depth + 1, t.base), rest)) else None
    else
      match ParseBase(s)
      case None => None
      case Some((b, rest)) => Some((JniType(0, b), rest))
  }

  /** ParameterDescriptors up to the closing parenthesis; the fuel is the length of the text. */
  function ParseParams(s: string, fuel: nat): Option<(seq<JniType>, string)>
    decreases fuel
  {
    if s == "" || fuel == 0 then None
    else if s[0] == ')' then Some(([], s[1..]))
    else match ParseType(s)
      case None => None
      case Some((t, rest)) =>
        match ParseParams(rest, fuel - 1)
        case None => None
        case Some((ts, end)) => Some(([t] + ts, end))
  }

  /** A MethodDescriptor: the parameter types and the return type. */
  function ParseMethod(s: string): Option<(seq<JniType>, JniType)>
  {
    if s == "" || s[0] != '(' then None
    else match ParseParams(s[1..], |s|)
      case None => None
      case Some((ts, rest)) =>
        if rest == "V" then Some((ts, JniType(0, Code('V'))))
        else match ParseType(rest)
          case None => None
          case Some((t, end)) => if end == "" then Some((ts, t)) else None
  }

  /** Types the grammar has: primitives other than void and classes with an internal name, and arrays. */
  predicate IsFieldType(t: JniType)
  {
    t.depth <= MAX_DIMENSIONS &&
    match t.base
    case Code(c) => c in BASE_CODES
    case Class(name) => IsInternalName(name)
  }

  predicate IsReturnType(t: JniType)
  {
    t == JniType(0, Code('V')) || IsFieldType(t)
  }

  lemma {:induction false} BeforeSemicolon(name: string, rest: string)
    requires ';' !in name
    ensures Before(name + ";" + rest, ';') == name
    decreases |name|
  {
    var s := name + ";" + rest;
    if name != "" {
      assert s[1..] == name[1..] + ";" + rest && s[0] == name[0] && name[0] in name;
      assert forall c :: c in name[1..] ==> c in name;
      BeforeSemicolon(name[1..], rest);
    }
  }

  lemma BaseParses(b: Base, rest: string)
    requires IsFieldType(JniType(0, b))
    ensures ParseBase(PrintBase(b) + rest) == Some((b, rest))
    ensures PrintBase(b)[0] != '[' && PrintBase(b)[0] != ')'
  {
    hide IsInternalName;
    var s := PrintBase(b) + rest;
    match b
    case Code(c) => assert s[1..] == rest;
    case Class(name) =>
      assert s[1..] == name + ";" + rest;
      InternalHasNo(name);
      BeforeSemicolon(name, rest);
      assert s[|name| + 2..] == rest;
      assert s[|name| + 1] == ';';
  }

  lemma {:induction false} TypeParses(t: JniType, rest: string)
    requires IsFieldType(t)
    ensures ParseType(Print(t) + rest) == Some((t, rest))
    ensures Print(t) != "" && Print(t)[0] != ')'
    decreases t.depth
  {
    hide ParseBase, PrintBase;
    if t.depth == 0 {
      BaseParses(t.base, rest);
      BaseNotEmpty(t.base);
      assert Print(t) == PrintBase(t.base);
    } else {
      var u := JniType(t.depth - 1, t.base);
      TypeParses(u, rest);
      assert Print(t) == "[" + Print(u);
      assert (Print(t) + rest)[1..] == Print(u) + rest;
    }
  }

  lemma BaseNotEmpty(b: Base)
    ensures PrintBase(b) != ""
  {
  }

  function PrintAll(ts: seq<JniType>): string
  {
    if ts == [] then "" else Print(ts[0]) + PrintAll(ts[1..])
  }

  lemma {:induction false} ParamsParse(ts: seq<JniType>, rest: string, fuel: nat)
    requires forall i :: 0 <= i < |ts| ==> IsFieldType(ts[i])
    requires fuel > |ts|
    ensures ParseParams(PrintAll(ts) + ")" + rest, fuel) == Some((ts, rest))
    decreases |ts|
  {
    hide Print, IsFieldType, ParseType;
    var s := PrintAll(ts) + ")" + rest;
    if ts == [] {
      assert s == ")" + rest && s[1..] == rest;
    } else {
      var tail := PrintAll(ts[1..]) + ")" + rest;
      assert s == Print(ts[0]) + tail;
      TypeParses(ts[0], tail);
      ParamsParse(ts[1..], rest, fuel - 1);
      assert [ts[0]] + ts[1..] == ts;
    }
  }

  lemma {:induction false} LongEnough(ts: seq<JniType>)
    ensures |ts| <= |PrintAll(ts)|
    decreases |ts|
  {
    hide PrintBase;
    if ts != [] {
      BaseNotEmpty(ts[0].base);
      LongEnough(ts[1..]);
    }
  }

  function Descriptor(ts: seq<JniType>, ret: JniType): string
  {
    "(" + PrintAll(ts) + ")" + Print(ret)
  }

  /** A printed descriptor parses, and to exactly the types it was printed from. */
  lemma DescriptorParses(ts: seq<JniType>, ret: JniType)
    requires (forall i :: 0 <= i < |ts| ==> IsFieldType(ts[i])) && IsReturnType(ret)
    ensures ParseMethod(Descriptor(ts, ret)) == Some((ts, ret))
  {
    hide ParseParams, ParseType, PrintAll, Print, IsFieldType;
    var s := Descriptor(ts, ret);
    LongEnough(ts);
    assert s[1..] == PrintAll(ts) + ")" + Print(ret);
    ParamsParse(ts, Print(ret), |s|);
    if ret == JniType(0, Code('V')) {
      VoidPrints();
    } else {
      TypeParses(ret, "");
      assert Print(ret) + "" == Print(ret);
      NotVoid(ret);
    }
  }

  lemma VoidPrints()
    ensures Print(JniType(0, Code('V'))) == "V"
  {
  }

  lemma NotVoid(t: JniType)
    requires IsFieldType(t)
    ensures Print(t) != "V"
  {
    hide ParseType;
    TypeParses(t, "");
    assert Print(t) + "" == Print(t);
    VoidIsNoType();
  }

  lemma VoidIsNoType()
    ensures ParseType("V") == None
  {
  }

  /** So no two lists of types share a descriptor. */
  lemma DescriptorIsUnique(ts: seq<JniType>, ret: JniType, us: seq<JniType>, ret': JniType)
    requires (forall i :: 0 <= i < |ts| ==> IsFieldType(ts[i])) && IsReturnType(ret)
    requires (forall i :: 0 <= i < |us| ==> IsFieldType(us[i])) && IsReturnType(ret')
    requires Descriptor(ts, ret) == Descriptor(us, ret')
    ensures ts == us && ret == ret'
  {
    hide Descriptor, ParseMethod, IsFieldType;
    DescriptorParses(ts, ret);
    DescriptorParses(us, ret');
  }

  /** Whatever parses is a type of the grammar. */
  lemma {:induction false} ParsedIsFieldType(s: string)
    ensures ParseType(s).Some? ==> IsFieldType(ParseType(s).value.0)
    decreases |s|
  {
    if s != "" && s[0] == '[' {
      ParsedIsFieldType(s[1..]);
    } else if ParseBase(s).Some? && ParseBase(s).value.0.Class? {
      NoneBefore(s[1..], ';');
    }
  }

  lemma {:induction false} NoneBefore(s: string, c: char)
    ensures c !in Before(s, c)
    decreases |s|
  {
    if s != "" && s[0] != c {
      NoneBefore(s[1..], c);
    }
  }

  lemma {:induction false} ParsedAreFieldTypes(s: string, fuel: nat)
    ensures var r := ParseParams(s, fuel); r.Some? ==> forall i :: 0 <= i < |r.value.0| ==> IsFieldType(r.value.0[i])
    decreases fuel
  {
    hide ParseType, IsFieldType;
    if s != "" && fuel > 0 && s[0] != ')' && ParseType(s).Some? {
      ParsedIsFieldType(s);
      ParsedAreFieldTypes(ParseType(s).value.1, fuel - 1);
    }
  }

  /** A descriptor parses back exactly when every parameter is a type of the grammar and the return type is
      one or is void. */
  lemma ParsesIffValid(ts: seq<JniType>, ret: JniType)
    ensures ParseMethod(Descriptor(ts, ret)) == Some((ts, ret)) <==>
            (forall i :: 0 <= i < |ts| ==> IsFieldType(ts[i])) && IsReturnType(ret)
  {
    hide IsFieldType, ParseParams, ParseType, Descriptor;
    var s := Descriptor(ts, ret);
    if ParseMethod(s) == Some((ts, ret)) {
      ParsedAreFieldTypes(s[1..], |s|);
      ParsedIsFieldType(ParseParams(s[1..], |s|).value.1);
    } else if (forall i :: 0 <= i < |ts| ==> IsFieldType(ts[i])) && IsReturnType(ret) {
      DescriptorParses(ts, ret);
    }
  }

  // Which names resolve to types of the grammar.

  /** The class and its inner classes have internal names; so have imports, unless nothing was imported, and
      the package, unless it is the unnamed one. */
  predicate CleanContext(ctx: Context)
    requires Sane(ctx)
  {
    && IsInternalName(ctx.fullyQualifiedClass[1..]) && (ctx.package == "" || IsInternalName(ctx.package))
    && (forall i :: 0 <= i < |ctx.innerClasses| ==> IsInternalName(ctx.innerClasses[i][1..]))
    && (forall i :: 0 <= i < |ctx.imports| ==> ctx.imports[i] == "L" || IsInternalName(ctx.imports[i][1..]))
  }

  function SimpleName(param: string): string
  {
    var parts := Split(param, '.');
    parts[|parts| - 1]
  }

  /** The import of the class that a dotted name is inside of, if there is one. */
  function OuterImport(ctx: Context, name: string): Option<string>
  {
    var parts := Split(name, '.');
    FirstEnding(ctx.imports, "/" + Join(parts[..|parts| - 1], "/"))
  }

  predicate IsKnown(ctx: Context, name: string)
  {
    || FirstNaming(OBJECT_PARAMS + [ctx.fullyQualifiedClass] + ctx.innerClasses, name).Some?
    || FirstEnding(ctx.imports, "/" + name).Some?
  }

  /** A name the search can do something with: an internal name; one it knows; an inner class, with nothing
      odd in it, of a class it has imported; or an identifier, if there is a package to put it in. */
  predicate IsSound(ctx: Context, name: string)
  {
    if '/' in name then IsInternalName(name)
    else if IsKnown(ctx, name) then true
    else if '.' in name && OuterImport(ctx, name).Some? then ';' !in SimpleName(name) && '[' !in SimpleName(name)
    else IsIdentifier(name) && ctx.package != ""
  }

  /** A type name that stands for a type of the grammar: a primitive but void, or a sound class name, with
      no more than 255 pairs of brackets. */
  predicate DenotesType(ctx: Context, param: string)
  {
    var name := BareName(param);
    Depth(param) <= 255 && if name in KEYWORDS then name != "void" else IsSound(ctx, name)
  }

  /** The base name is void. */
  predicate IsVoid(param: string)
  {
    BareName(param) == "void"
  }

  lemma ObjectParamsAreInternal()
    ensures forall i :: 0 <= i < |OBJECT_PARAMS| ==> HasL(OBJECT_PARAMS[i]) && IsInternalName(OBJECT_PARAMS[i][1..])
  {
    hide IsInternalName, IsIdentifier;
    BooleanAndInteger();
    LongAndObject();
    StringAndClass();
  }

  lemma BooleanAndInteger()
    ensures HasL("Ljava/lang/Boolean") && IsInternalName("Ljava/lang/Boolean"[1..])
    ensures HasL("Ljava/lang/Integer") && IsInternalName("Ljava/lang/Integer"[1..])
  {
    hide IsInternalName;
    LangClass("Ljava/lang/Boolean", "Boolean");
    LangClass("Ljava/lang/Integer", "Integer");
  }

  lemma LongAndObject()
    ensures HasL("Ljava/lang/Long") && IsInternalName("Ljava/lang/Long"[1..])
    ensures HasL("Ljava/lang/Object") && IsInternalName("Ljava/lang/Object"[1..])
  {
    hide IsInternalName;
    LangClass("Ljava/lang/Long", "Long");
    LangClass("Ljava/lang/Object", "Object");
  }

  lemma StringAndClass()
    ensures HasL("Ljava/lang/String") && IsInternalName("Ljava/lang/String"[1..])
    ensures HasL("Ljava/lang/Class") && IsInternalName("Ljava/lang/Class"[1..])
  {
    hide IsInternalName;
    LangClass("Ljava/lang/String", "String");
    LangClass("Ljava/lang/Class", "Class");
  }

  lemma LangClass(q: string, name: string)
    requires q == "Ljava/lang/" + name && IsIdentifier(name)
    ensures HasL(q) && IsInternalName(q[1..])
  {
    hide IsInternalName;
    SimpleInternal("java");
    SimpleInternal("lang");
    SimpleInternal(name);
    InternalJoin("lang", name);
    InternalJoin("java", "lang" + "/" + name);
    assert q[1..] == "java" + "/" + ("lang" + "/" + name);
  }

  /** A known class has an internal name. */
  lemma KnownIsInternal(ctx: Context, name: string)
    requires Sane(ctx) && CleanContext(ctx)
    ensures var r := FirstNaming(OBJECT_PARAMS + [ctx.fullyQualifiedClass] + ctx.innerClasses, name);
            r.Some? ==> HasL(r.value) && IsInternalName(r.value[1..])
  {
    hide IsInternalName, Names, FirstNaming;
    ObjectParamsAreInternal();
    FirstNamingIn(OBJECT_PARAMS + [ctx.fullyQualifiedClass] + ctx.innerClasses, name);
  }

  lemma ImportIsInternal(ctx: Context, rest: string)
    requires Sane(ctx) && CleanContext(ctx)
    ensures var r := FirstEnding(ctx.imports, "/" + rest); r.Some? ==> HasL(r.value) && IsInternalName(r.value[1..])
  {
    hide IsInternalName, FirstEnding, EndsWith;
    FirstEndingIn(ctx.imports, "/" + rest);
    var r := FirstEnding(ctx.imports, "/" + rest);
    if r.Some? {
      EndsLater(r.value, "/" + rest);
    }
  }

  /** The class found for a name has an internal name if and only if the name is sound. */
  lemma SoundIsInternal(ctx: Context, name: string)
    requires Sane(ctx) && CleanContext(ctx) && Qualify(ctx, name).Success?
    ensures |Qualify(ctx, name).v| >= 1
    ensures IsInternalName(Qualify(ctx, name).v[1..]) <==> IsSound(ctx, name)
  {
    hide IsInternalName, Split, Join, FirstNaming, FirstEnding, IsIdentifier;
    KnownIsInternal(ctx, name);
    ImportIsInternal(ctx, name);
    var parts := Split(name, '.');
    var outer := OuterImport(ctx, name);
    ImportIsInternal(ctx, Join(parts[..|parts| - 1], "/"));
    assert ("L" + name)[1..] == name;
    if '/' !in name && !IsKnown(ctx, name) {
      if '.' in name && outer.Some? {
        InnerIsInternal(outer.value, name);
      } else {
        InPackage(ctx.package, name);
        assert Qualify(ctx, name).v == "L" + ctx.package + "/" + name;
      }
    }
  }

  lemma InnerIsInternal(outer: string, name: string)
    requires HasL(outer) && IsInternalName(outer[1..]) && '/' !in name
    ensures IsInternalName((outer + "$" + SimpleName(name))[1..]) <==>
            ';' !in SimpleName(name) && '[' !in SimpleName(name)
  {
    hide IsInternalName, Split;
    var inner := SimpleName(name);
    SplitKeeps(name, '.', '/');
    NoSeparatorInParts(name, '.');
    assert forall i :: 0 <= i < |Split(name, '.')| ==> '/' !in Split(name, '.')[i];
    assert '/' !in inner && '.' !in inner && '/' !in "$" + inner;
    InternalTail(outer[1..], "$" + inner);
    assert (outer + "$" + inner)[1..] == outer[1..] + ("$" + inner);
    assert forall c :: c in "$" + inner <==> c == '$' || c in inner;
  }

  lemma InPackage(package: string, name: string)
    requires (package == "" || IsInternalName(package)) && '/' !in name
    ensures ("L" + package + "/" + name)[1..] == package + "/" + name
    ensures IsInternalName(package + "/" + name) <==> IsIdentifier(name) && package != ""
  {
    hide IsInternalName, Split, IsIdentifier;
    InternalJoin(package, name);
    SimpleInternal(name);
    if package == "" {
      SimpleInternal("");
      EmptyIsNoIdentifier();
    }
  }

  lemma EmptyIsNoIdentifier()
    ensures !IsIdentifier("")
  {
  }

  /** A name resolves to a type of the grammar if and only if it denotes one. */
  lemma ResolvesToFieldType(ctx: Context, param: string)
    requires Sane(ctx) && CleanContext(ctx) && Resolve(ctx, param).Success?
    ensures IsFieldType(Resolve(ctx, param).v) <==> DenotesType(ctx, param)
    ensures IsReturnType(Resolve(ctx, param).v) <==> DenotesType(ctx, param) || (IsVoid(param) && Depth(param) == 0)
  {
    hide Qualify, BareName, Depth, IsInternalName, IsSound, CleanContext, KEYWORDS;
    var name := BareName(param);
    PrimitiveCodes(name);
    if Primitive(name).None? {
      SoundIsInternal(ctx, name);
    }
  }

  lemma PrimitiveCodes(name: string)
    ensures Primitive(name).Some? ==> (Primitive(name).value in BASE_CODES <==> name != "void")
    ensures Primitive(name) == Some('V') <==> name == "void"
    ensures Primitive(name).Some? <==> name in KEYWORDS
  {
  }

  /** What the two setters make of internal names is a clean context. */
  lemma ExtractedIsClean(ctx: Context, imported: seq<string>, declared: seq<string>)
    requires Sane(ctx) && CleanContext(ctx)
    requires forall i :: 0 <= i < |imported| ==> imported[i] == "" || IsInternalName(Replace(imported[i], '.', '/'))
    requires forall i :: 0 <= i < |declared| ==> IsIdentifier(declared[i])
    ensures var t := ctx.(imports := ctx.imports + Imports(imported),
                          innerClasses := ctx.innerClasses + Inners(ctx.fullyQualifiedClass, declared));
            Sane(t) && CleanContext(t)
  {
    hide IsInternalName, Replace, EndsWith, Split;
    ImportsAreClean(imported);
    InnersAreClean(ctx.fullyQualifiedClass, declared);
  }

  lemma {:induction false} ImportsAreClean(imported: seq<string>)
    requires forall i :: 0 <= i < |imported| ==> imported[i] == "" || IsInternalName(Replace(imported[i], '.', '/'))
    ensures forall i :: 0 <= i < |Imports(imported)| ==>
              "L" <= Imports(imported)[i] && (Imports(imported)[i] == "L" || IsInternalName(Imports(imported)[i][1..]))
    decreases |imported|
  {
    hide IsInternalName;
    if imported != [] {
      var last := imported[|imported| - 1];
      ImportsAreClean(imported[..|imported| - 1]);
      assert ("L" + Replace(last, '.', '/'))[1..] == Replace(last, '.', '/');
    }
  }

  lemma {:induction false} InnersAreClean(outer: string, declared: seq<string>)
    requires HasL(outer) && IsInternalName(outer[1..])
    requires forall i :: 0 <= i < |declared| ==> IsIdentifier(declared[i])
    ensures forall i :: 0 <= i < |Inners(outer, declared)| ==>
              HasL(Inners(outer, declared)[i]) && IsInternalName(Inners(outer, declared)[i][1..])
    decreases |declared|
  {
    hide IsInternalName, EndsWith;
    if declared != [] {
      var last := declared[|declared| - 1];
      InnersAreClean(outer, declared[..|declared| - 1]);
      assert (outer + "$" + last)[1..] == outer[1..] + ("$" + last);
      assert forall c :: c in "$" + last <==> c == '$' || c in last;
      InternalTail(outer[1..], "$" + last);
    }
  }

  lemma SetIsClean(name: string)
    requires IsInternalName(name)
    ensures var parts := Split(name, '/');
            var ctx := Context("L" + name, Join(parts[..|parts| - 1], "/"), [], []);
            Sane(ctx) && CleanContext(ctx)
  {
    hide Split;
    var parts := Split(name, '/');
    InternalHasNo(name);
    assert ("L" + name)[1..] == name;
    if |parts| > 1 {
      InternalParts(parts[..|parts| - 1]);
    }
  }

  // The simple name of a class is never changed.

  lemma EndsThrough(q: string, r: string, t: string)
    requires EndsWith(q, r) && EndsWith(r, t)
    ensures EndsWith(q, t)
  {
    assert q[|q| - |t|..] == q[|q| - |r|..][|r| - |t|..];
  }

  lemma EndsAppended(a: string, t: string)
    ensures EndsWith(a + t, t)
  {
  }

  lemma {:induction false} LastPartEnds(s: string, sep: char, sub: char)
    ensures var parts := Split(s, sep);
            && EndsWith(s, parts[|parts| - 1]) && EndsWith(Replace(s, sep, sub), parts[|parts| - 1])
            && (|parts| == 1 ==> parts[0] == s == Replace(s, sep, sub))
    decreases |s|
  {
    hide EndsWith;
    var parts := Split(s, sep);
    var last := parts[|parts| - 1];
    if s == "" {
      EndsAppended("", "");
      assert "" + "" == "";
    } else {
      LastPartEnds(s[1..], sep, sub);
      assert [s[0]] + s[1..] == s;
      EndsAppended([s[0]], s[1..]);
      EndsAppended([Replace(s, sep, sub)[0]], Replace(s[1..], sep, sub));
      if |parts| == 1 {
        EndsAppended("", s);
        assert "" + s == s;
      } else {
        var rest := Split(s[1..], sep);
        assert |rest| > 1 || s[0] == sep;
        assert last == rest[|rest| - 1];
        EndsThrough(s, s[1..], last);
        EndsThrough(Replace(s, sep, sub), Replace(s[1..], sep, sub), last);
      }
    }
  }

  /** However a class name is resolved, the class printed ends in the simple name that was given. */
  lemma SimpleNameSurvives(ctx: Context, param: string)
    requires Qualify(ctx, param).Success?
    ensures EndsWith(Qualify(ctx, param).v, SimpleName(param))
  {
    hide EndsWith, Split, FirstNaming, FirstEnding, Replace;
    var q, last := Qualify(ctx, param).v, SimpleName(param);
    FirstNamingIn(OBJECT_PARAMS + [ctx.fullyQualifiedClass] + ctx.innerClasses, param);
    FirstEndingIn(ctx.imports, "/" + param);
    LastPartEnds(param, '.', '$');
    EndsAppended("L", param);
    EndsAppended("/", param);
    EndsAppended("$", Replace(param, '.', '$'));
    EndsAppended("L" + ctx.package + "/", param);
    forall r: string | EndsWith(q, r) && EndsWith(r, last)
      ensures EndsWith(q, last)
    {
      EndsThrough(q, r, last);
    }
    forall r: string | EndsWith(r, param)
      ensures EndsWith(r, last)
    {
      EndsThrough(r, param, last);
    }
    EndsThrough("$" + Replace(param, '.', '$'), Replace(param, '.', '$'), last);
    var parts := Split(param, '.');
    var outer := FirstEnding(ctx.imports, "/" + Join(parts[..|parts| - 1], "/"));
    if outer.Some? {
      EndsAppended(outer.value + "$", last);
      assert outer.value + "$" + last == (outer.value + "$") + last;
    }
  }

  // What the string operations mean.

  lemma EndsWithMeans(s: string, t: string)
    ensures EndsWith(s, t) <==> exists p :: s == p + t
  {
    if EndsWith(s, t) {
      assert s == s[..|s| - |t|] + t;
    }
  }

  lemma {:induction false} ReplaceMeans(s: string, a: char, b: char)
    ensures |Replace(s, a, b)| == |s|
    ensures forall i :: 0 <= i < |s| ==> Replace(s, a, b)[i] == if s[i] == a then b else s[i]
    decreases |s|
  {
    if s != "" {
      ReplaceMeans(s[1..], a, b);
    }
  }

  lemma {:induction false} BeforeMeans(s: string, c: char) returns (rest: string)
    requires c in s
    ensures s == Before(s, c) + [c] + rest && c !in Before(s, c)
    decreases |s|
  {
    if s[0] == c {
      rest := s[1..];
    } else {
      rest := BeforeMeans(s[1..], c);
      assert [s[0]] + s[1..] == s;
    }
  }

  /** The parts are what lies between the separators. */
  lemma {:induction false} SplitMeans(s: string, sep: char)
    ensures Join(Split(s, sep), [sep]) == s
    ensures forall i :: 0 <= i < |Split(s, sep)| ==> sep !in Split(s, sep)[i]
    decreases |s|
  {
    hide Split, Join;
    NoSeparatorInParts(s, sep);
    SplitStep(s, sep);
    if s == "" {
      JoinOne("", [sep]);
    } else {
      SplitMeans(s[1..], sep);
      var rest := Split(s[1..], sep);
      assert [s[0]] + s[1..] == s;
      if s[0] == sep {
        JoinMore("", rest, [sep]);
        assert "" + [sep] + s[1..] == s;
      } else if |rest| == 1 {
        assert rest == [rest[0]] && [[s[0]] + rest[0]] + rest[1..] == [[s[0]] + rest[0]];
        JoinOne(rest[0], [sep]);
        JoinOne([s[0]] + rest[0], [sep]);
      } else {
        assert rest == [rest[0]] + rest[1..];
        JoinMore(rest[0], rest[1..], [sep]);
        JoinMore([s[0]] + rest[0], rest[1..], [sep]);
        var tail := Join(rest[1..], [sep]);
        assert [s[0]] + rest[0] + [sep] + tail == [s[0]] + (rest[0] + [sep] + tail);
      }
    }
  }

  lemma JoinOne(a: string, sep: string)
    ensures Join([a], sep) == a
  {
  }

  lemma JoinMore(a: string, rest: seq<string>, sep: string)
    requires rest != []
    ensures Join([a] + rest, sep) == a + sep + Join(rest, sep)
  {
    assert ([a] + rest)[1..] == rest;
  }

  lemma {:induction false} JoinLast(parts: seq<string>, last: string, sep: string)
    requires parts != []
    ensures Join(parts + [last], sep) == Join(parts, sep) + sep + last
    decreases |parts|
  {
    hide Join;
    if |parts| == 1 {
      assert parts == [parts[0]] && parts + [last] == [parts[0]] + [last];
      JoinOne(parts[0], sep);
      JoinOne(last, sep);
      JoinMore(parts[0], [last], sep);
    } else {
      var rest := parts[1..];
      assert parts == [parts[0]] + rest && parts + [last] == [parts[0]] + (rest + [last]);
      JoinLast(rest, last, sep);
      JoinMore(parts[0], rest, sep);
      JoinMore(parts[0], rest + [last], sep);
      var a, b := parts[0] + sep, Join(rest, sep);
      assert a + (b + sep + last) == a + b + sep + last;
    }
  }

  /** All but the last component of a path, with its slashes. */
  lemma PackageIsRest(name: string)
    ensures var parts := Split(name, '/'); var package := Join(parts[..|parts| - 1], "/");
            && ('/' !in name ==> package == "")
            && ('/' in name ==> exists simple :: '/' !in simple && name == package + "/" + simple)
  {
    hide Split, Join;
    SplitMeans(name, '/');
    var parts := Split(name, '/');
    var front, last := parts[..|parts| - 1], parts[|parts| - 1];
    assert parts == front + [last];
    if front == [] {
      JoinOne(last, "/");
      assert parts == [last] && name == last;
      NoParts();
    } else {
      JoinLast(front, last, "/");
      assert name == Join(front, "/") + "/" + last;
      assert name[|Join(front, "/")|] == '/';
    }
  }

  lemma NoParts()
    ensures Join([], "/") == ""
  {
  }

  /** The pairs of brackets at the end, the name before them, and the part of that before a '<'. */
  lemma {:induction false} NameParts(param: string)
    ensures var base := WithoutArrays(param);
            && param == base + Pairs(Depth(param)) && !EndsWith(base, "[]")
            && '<' !in BareName(param)
            && (base == BareName(param) || exists rest :: base == BareName(param) + "<" + rest)
    decreases |param|
  {
    var base := WithoutArrays(param);
    if EndsWith(param, "[]") {
      NameParts(param[..|param| - 2]);
      PairsNext(Depth(param) - 1);
      var short := param[..|param| - 2];
      assert param == short + "[]";
      assert base + Pairs(Depth(short)) + "[]" == base + (Pairs(Depth(short)) + "[]");
    } else {
      assert param + "" == param;
      if '<' in base {
        var rest := BeforeMeans(base, '<');
        assert base == BareName(param) + "<" + rest;
      }
    }
  }

  function Pairs(n: nat): string
  {
    if n == 0 then "" else "[]" + Pairs(n - 1)
  }

  lemma {:induction false} PairsNext(n: nat)
    ensures Pairs(n) + "[]" == Pairs(n + 1)
    decreases n
  {
    if n > 0 {
      PairsNext(n - 1);
      assert "[]" + Pairs(n - 1) + "[]" == "[]" + (Pairs(n - 1) + "[]");
    } else {
      assert "" + "[]" == "[]" + "";
    }
  }

  // Signatures.

  function ResolveAll(ctx: Context, params: seq<string>): Result<seq<JniType>, JniError>
    requires Sane(ctx)
    decreases |params|
  {
    if params == [] then Success([])
    else match Resolve(ctx, params[0])
      case Failure(e) => Failure(e)
      case Success(t) =>
        match ResolveAll(ctx, params[1..])
        case Failure(e) => Failure(e)
        case Success(ts) => Success([t] + ts)
  }

  function Quoted(s: string): string
  {
    "\"" + s + "\""
  }

  lemma QuotedMeans(s: string)
    ensures var q := Quoted(s);
            |q| == |s| + 2 && q[0] == '\"' && q[1..|s| + 1] == s && q[|s| + 1] == '\"'
  {
  }

  function QuoteAll(items: seq<string>): (qs: seq<string>)
    ensures |qs| == |items|
    ensures forall i :: 0 <= i < |items| ==> qs[i] == Quoted(items[i])
  {
    if items == [] then [] else [Quoted(items[0])] + QuoteAll(items[1..])
  }

  /** The printed items: parentheses around the parameters, then the return type. */
  function Items(ts: seq<JniType>, ret: JniType): seq<string>
  {
    ["("] + seq(|ts|, i requires 0 <= i < |ts| => Print(ts[i])) + [")"] + [Print(ret)]
  }

  method Signature(ctx: Context, params: seq<string>, ret: string, wrap: bool) returns (r: Result<string, JniError>)
    requires Sane(ctx)
    ensures match ResolveAll(ctx, params)
            case Failure(e) => r == Failure(e)
            case Success(ts) =>
              match Resolve(ctx, ret)
              case Failure(e) => r == Failure(e)
              case Success(t) => r == Success(if wrap then "\n" + Join(QuoteAll(Items(ts, t)), "\n")
                                              else Quoted(Join(Items(ts, t), "")))
  {
    hide Resolve, Print, Join;
    var items := ["("];
    var i := 0;
    ghost var ts: seq<JniType> := [];
    assert params[0..] == params;
    assert forall us: seq<JniType> :: ts + us == us;
    while i < |params|
      invariant i <= |params| && items == ["("] + seq(|ts|, j requires 0 <= j < |ts| => Print(ts[j]))
      invariant ResolveAll(ctx, params) ==
                match ResolveAll(ctx, params[i..])
                case Failure(e) => Failure(e)
                case Success(us) => Success(ts + us)
    {
      var item := JavaToJni(ctx, params[i]);
      assert params[i..][0] == params[i] && params[i..][1..] == params[i + 1..];
      if item.Failure? {
        return Failure(item.e);
      }
      ghost var t := Resolve(ctx, params[i]).v;
      assert forall us: seq<JniType> :: ts + ([t] + us) == ts + [t] + us;
      items := items + [item.v];
      ts := ts + [t];
      i := i + 1;
    }
    assert ts + [] == ts;
    var last := JavaToJni(ctx, ret);
    if last.Failure? {
      return Failure(last.e);
    }
    items := items + [")"] + [last.v];
    if wrap {
      r := Success("\n" + Join(QuoteAll(items), "\n"));
    } else {
      r := Success(Quoted(Join(items, "")));
    }
  }

  function Concat(items: seq<string>): string
  {
    if items == [] then "" else items[0] + Concat(items[1..])
  }

  lemma {:induction false} JoinIsConcat(items: seq<string>)
    ensures Join(items, "") == Concat(items)
    decreases |items|
  {
    if |items| > 1 {
      JoinIsConcat(items[1..]);
    } else if |items| == 1 {
      assert items[1..] == [];
    }
  }

  lemma {:induction false} ItemsConcat(ts: seq<JniType>, tail: seq<string>)
    ensures Concat(seq(|ts|, i requires 0 <= i < |ts| => Print(ts[i])) + tail) == PrintAll(ts) + Concat(tail)
    decreases |ts|
  {
    hide Print;
    var items := seq(|ts|, i requires 0 <= i < |ts| => Print(ts[i])) + tail;
    if ts == [] {
      assert items == tail;
    } else {
      var us := ts[1..];
      assert items[1..] == seq(|us|, i requires 0 <= i < |us| => Print(us[i])) + tail;
      ItemsConcat(us, tail);
    }
  }

  /** The unwrapped form is the descriptor in quotes. */
  lemma UnwrappedIsDescriptor(ts: seq<JniType>, ret: JniType)
    ensures Join(Items(ts, ret), "") == Descriptor(ts, ret)
  {
    hide Print, PrintAll;
    var prints := seq(|ts|, i requires 0 <= i < |ts| => Print(ts[i]));
    var tail := [")"] + [Print(ret)];
    JoinIsConcat(Items(ts, ret));
    assert Items(ts, ret) == ["("] + (prints + tail);
    assert (["("] + (prints + tail))[1..] == prints + tail;
    ItemsConcat(ts, tail);
    assert tail[1..] == [Print(ret)] && [Print(ret)][1..] == [];
    assert Concat([Print(ret)]) == Print(ret) + Concat([]) == Print(ret);
    assert Concat(tail) == ")" + Concat([Print(ret)]);
  }

  lemma {:induction false} ResolvedOneByOne(ctx: Context, params: seq<string>)
    requires Sane(ctx) && ResolveAll(ctx, params).Success?
    ensures var ts := ResolveAll(ctx, params).v;
            |ts| == |params| && forall i :: 0 <= i < |params| ==> Resolve(ctx, params[i]) == Success(ts[i])
    decreases |params|
  {
    hide Resolve;
    if params != [] {
      ResolvedOneByOne(ctx, params[1..]);
    }
  }

  /** A code is that of the keyword the name is, and a class is no keyword. */
  predicate BaseOf(b: Base, param: string)
  {
    match b
    case Code(c) => Keyword(c) == BareName(param) && BareName(param) != ""
    case Class(_) => BareName(param) !in KEYWORDS
  }

  lemma BaseKept(ctx: Context, param: string)
    requires Sane(ctx) && Resolve(ctx, param).Success?
    ensures BaseOf(Resolve(ctx, param).v.base, param)
  {
    hide Qualify, BareName, Depth, Primitive, Keyword, KEYWORDS;
    var p := Primitive(BareName(param));
    PrimitiveIsKeyword(BareName(param), if p.Some? then p.value else 'V');
  }

  lemma DepthKept(ctx: Context, param: string)
    requires Sane(ctx) && Resolve(ctx, param).Success?
    ensures Resolve(ctx, param).v.depth == Depth(param)
  {
    hide Qualify, BareName, Depth, Primitive;
  }

  /** For names that resolve, the text Signature prints parses to one type per parameter, each with its
      array depth and the class or primitive its name stands for, and to the return type: exactly when every
      parameter denotes a type of the grammar, and the return type denotes one or is void. */
  lemma SignatureParses(ctx: Context, params: seq<string>, ret: string)
    requires Sane(ctx) && CleanContext(ctx) && ResolveAll(ctx, params).Success? && Resolve(ctx, ret).Success?
    ensures var ts, t := ResolveAll(ctx, params).v, Resolve(ctx, ret).v;
            && |ts| == |params|
            && (forall i :: 0 <= i < |params| ==>
                Resolve(ctx, params[i]) == Success(ts[i]) && ts[i].depth == Depth(params[i]) &&
                BaseOf(ts[i].base, params[i]))
            && BaseOf(t.base, ret)
            && (ParseMethod(Join(Items(ts, t), "")) == Some((ts, t)) <==>
                (forall i :: 0 <= i < |params| ==> DenotesType(ctx, params[i])) &&
                (DenotesType(ctx, ret) || (IsVoid(ret) && Depth(ret) == 0)))
  {
    hide ResolveAll, Resolve, Descriptor, Items, Join, ParseMethod, IsFieldType;
    hide IsReturnType, DenotesType, IsVoid, Depth, CleanContext, BaseOf;
    var ts, t := ResolveAll(ctx, params).v, Resolve(ctx, ret).v;
    ResolvedOneByOne(ctx, params);
    UnwrappedIsDescriptor(ts, t);
    ParsesIffValid(ts, t);
    ResolvesToFieldType(ctx, ret);
    BaseKept(ctx, ret);
    forall i | 0 <= i < |params|
      ensures IsFieldType(ts[i]) <==> DenotesType(ctx, params[i])
      ensures ts[i].depth == Depth(params[i]) && BaseOf(ts[i].base, params[i])
    {
      ResolvesToFieldType(ctx, params[i]);
      DepthKept(ctx, params[i]);
      BaseKept(ctx, params[i]);
    }
  }

  // Inputs for which what is printed is no descriptor.

  lemma BadClassParsesNot(name: string, rest: string)
    requires ';' !in name && !IsInternalName(name)
    ensures ParseMethod("(L" + name + ";" + rest) == None
  {
    hide IsInternalName;
    var s := "(L" + name + ";" + rest;
    var t := "L" + name + ";" + rest;
    assert s[1..] == t && t[1..] == name + ";" + rest && ';' in t;
    BeforeSemicolon(name, rest);
    assert ParseType(t) == None;
  }

  lemma NotNamed(q: string, name: string, k: nat)
    requires k < |q| && k < |name| && q[|q| - 1 - k] != name[|name| - 1 - k] && name[|name| - 1 - k] != '.'
    ensures !Names(q, name)
  {
    hide EndsWith;
    ReplaceAt(name, '.', '$', |name| - 1 - k);
    var slash, dollar := "/" + name, "$" + Replace(name, '.', '$');
    forall t: string | EndsWith(q, t) && k < |t|
      ensures q[|q| - 1 - k] == t[|t| - 1 - k]
    {
      EndsAt(q, t, k);
    }
    assert slash[|slash| - 1 - k] == name[|name| - 1 - k] == dollar[|dollar| - 1 - k];
    assert ("L" + name)[|name| - k] == name[|name| - 1 - k];
  }

  lemma EndsAt(q: string, t: string, k: nat)
    requires EndsWith(q, t) && k < |t|
    ensures k < |q| && q[|q| - 1 - k] == t[|t| - 1 - k]
  {
    assert q[|q| - |t|..][|t| - 1 - k] == q[|q| - 1 - k];
  }

  lemma {:induction false} ReplaceAt(s: string, a: char, b: char, i: nat)
    requires i < |s|
    ensures |Replace(s, a, b)| == |s| && (s[i] != a ==> Replace(s, a, b)[i] == s[i])
    decreases |s|
  {
    if |s| > 1 {
      ReplaceAt(s[1..], a, b, if i == 0 then 0 else i - 1);
    }
  }

  /** A class pkg/A and no imports. */
  const LONELY := Context("Lpkg/A", "pkg", [], [])

  lemma OuterInnerIsUnknown()
    ensures Qualify(LONELY, "Outer.Inner") == Success("Lpkg/Outer.Inner")
  {
    hide Names, Split, Join;
    var name := "Outer.Inner";
    FirstNamingIn(OBJECT_PARAMS + ["Lpkg/A"] + [], name);
    NotNamed("Ljava/lang/Boolean", name, 0);
    NotNamed("Ljava/lang/Integer", name, 2);
    NotNamed("Ljava/lang/Long", name, 0);
    NotNamed("Ljava/lang/Object", name, 0);
    NotNamed("Ljava/lang/String", name, 0);
    NotNamed("Ljava/lang/Class", name, 0);
    NotNamed("Lpkg/A", name, 0);
    assert FirstNaming(OBJECT_PARAMS + ["Lpkg/A"] + [], name).None?;
    assert "L" + "pkg" + "/" + name == "Lpkg/Outer.Inner";
  }

  lemma DotIsNoType(name: string)
    requires '.' in name
    ensures !IsInternalName(name)
  {
    hide IsInternalName;
    if IsInternalName(name) {
      InternalHasNo(name);
    }
  }

  lemma OuterInnerResolves()
    ensures Sane(LONELY) && Resolve(LONELY, "Outer.Inner") == Success(JniType(0, Class("pkg/Outer.Inner")))
  {
    hide Qualify;
    OuterInnerIsUnknown();
    assert "Lpkg/Outer.Inner"[1..] == "pkg/Outer.Inner";
  }

  lemma DottedParsesNot(name: string, ret: JniType)
    requires '.' in name && ';' !in name
    ensures ParseMethod(Descriptor([JniType(0, Class(name))], ret)) == None
  {
    hide ParseMethod, Print, PrintAll, IsInternalName;
    var t := JniType(0, Class(name));
    DotIsNoType(name);
    BadClassParsesNot(name, ")" + Print(ret));
    OnePrints(t);
    ClassPrints(name);
    assert Descriptor([t], ret) == "(L" + name + ";" + (")" + Print(ret));
  }

  /** An inner class whose outer class was not imported is printed with its dot: its name resolves, and what
      is printed for a method that takes it is no descriptor. */
  lemma UnimportedInnerClass(ret: JniType)
    ensures Sane(LONELY) && Resolve(LONELY, "Outer.Inner") == Success(JniType(0, Class("pkg/Outer.Inner")))
    ensures ParseMethod(Descriptor([JniType(0, Class("pkg/Outer.Inner"))], ret)) == None
  {
    hide Resolve, ParseMethod, Descriptor, Sane;
    OuterInnerResolves();
    assert "pkg/Outer.Inner"[9] == '.';
    DottedParsesNot("pkg/Outer.Inner", ret);
  }

  lemma OnePrints(t: JniType)
    ensures PrintAll([t]) == Print(t)
  {
    hide Print;
    assert [t][1..] == [];
  }

  lemma ClassPrints(name: string)
    ensures Print(JniType(0, Class(name))) == "L" + name + ";"
  {
  }

  /** A void parameter: what is printed is no descriptor. */
  lemma VoidParameter()
    ensures Descriptor([JniType(0, Code('V'))], JniType(0, Code('V'))) == "(V)V" && ParseMethod("(V)V") == None
  {
    hide Print;
    VoidPrints();
    OnePrints(JniType(0, Code('V')));
    assert "(V)V"[1..] == "V)V";
    assert ParseType("V)V") == None;
  }

  lemma {:induction false} SplitFirst(part: string, rest: string)
    requires '\n' !in part
    ensures Split(part + "\n" + rest, '\n') == [part] + Split(rest, '\n')
    ensures Split(part, '\n') == [part]
    decreases |part|
  {
    var s := part + "\n" + rest;
    if part == "" {
      assert s[1..] == rest;
    } else {
      assert s[1..] == part[1..] + "\n" + rest && s[0] == part[0] && part[0] in part;
      SplitFirst(part[1..], rest);
      assert [part[0]] + part[1..] == part;
    }
  }

  lemma {:induction false} SplitJoin(parts: seq<string>)
    requires parts != [] && forall i :: 0 <= i < |parts| ==> '\n' !in parts[i]
    ensures Split(Join(parts, "\n"), '\n') == parts
    decreases |parts|
  {
    hide Split;
    SplitFirst(parts[0], Join(parts[1..], "\n"));
    if |parts| > 1 {
      SplitJoin(parts[1..]);
      assert [parts[0]] + parts[1..] == parts;
    } else {
      assert parts == [parts[0]];
    }
  }

  /** The text between the first and the last character of each line. */
  function Unquote(lines: seq<string>): string
  {
    if lines == [] then ""
    else (if |lines[0]| >= 2 then lines[0][1..|lines[0]| - 1] else "") + Unquote(lines[1..])
  }

  lemma {:induction false} UnquoteAll(items: seq<string>)
    ensures Unquote(QuoteAll(items)) == Concat(items)
    decreases |items|
  {
    if items != [] {
      assert QuoteAll(items)[1..] == QuoteAll(items[1..]);
      assert Quoted(items[0])[1..|Quoted(items[0])| - 1] == items[0];
      UnquoteAll(items[1..]);
    }
  }

  /** The lines of the wrapped form, without their quotes and joined, are the unwrapped form. */
  lemma WrappedJoinsToUnwrapped(ts: seq<JniType>, ret: JniType)
    requires '\n' !in Print(ret) && forall i :: 0 <= i < |ts| ==> '\n' !in Print(ts[i])
    ensures var lines := Split("\n" + Join(QuoteAll(Items(ts, ret)), "\n"), '\n');
            lines[0] == "" && Unquote(lines[1..]) == Descriptor(ts, ret)
  {
    hide Print, Join, QuoteAll, Descriptor, Unquote, Concat;
    var items := Items(ts, ret);
    var quoted := QuoteAll(items);
    assert forall i :: 0 <= i < |quoted| ==> '\n' !in quoted[i];
    SplitJoin(quoted);
    var joined := Join(quoted, "\n");
    SplitFirst("", joined);
    assert "" + "\n" + joined == "\n" + joined;
    assert ([""] + quoted)[1..] == quoted;
    UnquoteAll(items);
    JoinIsConcat(items);
    UnwrappedIsDescriptor(ts, ret);
  }
}
