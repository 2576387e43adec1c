/** Local `$ref` resolution in an API document, with cycle detection over the references
    that are still open. */
module RefResolver {
  import opened Wrappers
  import opened Strings

  /** Lists are never descended into, so their elements do not matter here. */
  datatype Json = Null | Bool(b: bool) | Num(n: int) | Str(s: string) | List(items: seq<Json>) | Obj(fields: Fields)

  /** A dictionary in insertion order. */
  datatype Fields = Nil | Cons(key: string, value: Json, rest: Fields)

  function Get(d: Fields, key: string): Option<Json> {
    match d
    case Nil => None
    case Cons(k, v, rest) => if k == key then Some(v) else Get(rest, key)
  }

  /** The reference of a value that is one. */
  function RefOf(d: Fields): Option<string> {
    var r := Get(d, "$ref");
    if r.Some? && r.value.Str? then Some(r.value.s) else None
  }

  /** `{**a, **b}`: `b` overrides in place and appends what is new. */
  function Override(a: Fields, b: Fields): Fields {
    match a
    case Nil => b
    case Cons(k, v, rest) =>
      Cons(k, if Get(b, k).Some? then Get(b, k).value else v, Override(rest, Drop(b, k)))
  }

  function Drop(d: Fields, key: string): Fields {
    match d
    case Nil => Nil
    case Cons(k, v, rest) => if k == key then Drop(rest, key) else Cons(k, v, Drop(rest, key))
  }

  datatype Document = Document(schemas: Fields, responses: Fields)

  datatype RefError = Unsupported(ref: string) | Unresolved(ref: string) | Cyclic(ref: string)

  /** The dictionary a reference names, by the last segment of the reference. */
  function Target(doc: Document, ref: string): Result<Fields, RefError> {
    if !StartsWith(ref, "#/components/schemas/") &&
        !StartsWith(ref, "#/components/responses/") then Err(Unsupported(ref))
    else
      var found := Get(if StartsWith(ref, "#/components/schemas/") then doc.schemas else doc.responses, Name(ref));
      if found.Some? && found.value.Obj? then Ok(found.value.fields) else Err(Unresolved(ref))
  }

  // ---------------------------------------------------------------- which references occur

  /** The references met at or below a dictionary through dictionary nesting. */
  function FieldRefs(d: Fields): set<string> {
    match d
    case Nil => {}
    case Cons(k, v, rest) => (if v.Str? then {v.s} else if v.Obj? then FieldRefs(v.fields) else {}) + FieldRefs(rest)
  }

  function Refs(v: Json): set<string> {
    if v.Obj? then FieldRefs(v.fields) else {}
  }

  lemma {:induction false} RefOfOccurs(d: Fields)
    ensures RefOf(d).Some? ==> RefOf(d).value in FieldRefs(d)
  {
    match d
    case Nil =>
    case Cons(k, _, rest) => if k != "$ref" { RefOfOccurs(rest); }
  }

  lemma {:induction false} GetRefs(d: Fields, key: string)
    ensures Get(d, key).Some? ==> Refs(Get(d, key).value) <= FieldRefs(d)
  {
    match d
    case Nil =>
    case Cons(k, _, rest) => if k != key { GetRefs(rest, key); }
  }

  function DocumentRefs(doc: Document): set<string> {
    FieldRefs(doc.schemas) + FieldRefs(doc.responses)
  }

  lemma {:induction false} TargetRefs(doc: Document, ref: string)
    ensures Target(doc, ref).Ok? ==> FieldRefs(Target(doc, ref).value) <= DocumentRefs(doc)
  {
    GetRefs(doc.schemas, Name(ref));
    GetRefs(doc.responses, Name(ref));
  }

  lemma {:induction false} FewerLeft(all: set<string>, seen: set<string>, ref: string)
    requires ref in all && ref !in seen
    ensures |all - (seen + {ref})| < |all - seen|
  {
    assert all - (seen + {ref}) == (all - seen) - {ref};
  }

  // ---------------------------------------------------------------- the resolver

  /** What resolving a dictionary means while the references in `seen` are open. `all` holds
      every reference that can be met; each one can be opened once on a path. */
  function Resolved(doc: Document, all: set<string>, d: Fields, seen: set<string>): Result<Fields, RefError>
    requires DocumentRefs(doc) <= all && FieldRefs(d) <= all
    decreases |all - seen|, d, 1
  {
    var ref := RefOf(d);
    if ref.None? then Children(doc, all, d, seen, false)
    else
      match Target(doc, ref.value)
      case Err(e) => Err(e)
      case Ok(target) =>
        if ref.value in seen then Err(Cyclic(ref.value))
        else
          RefOfOccurs(d);
          TargetRefs(doc, ref.value);
          FewerLeft(all, seen, ref.value);
          var resolved := Resolved(doc, all, target, seen + {ref.value});
          if resolved.Err? then resolved
          else
            var siblings := Children(doc, all, d, seen, true);
            if siblings.Err? then siblings else Ok(Override(resolved.value, siblings.value))
  }

  /** The children in order, without `$ref` when `skip`; the first error ends it. */
  function Children(doc: Document, all: set<string>, d: Fields, seen: set<string>, skip: bool): Result<Fields, RefError>
    requires DocumentRefs(doc) <= all && FieldRefs(d) <= all
    decreases |all - seen|, d, 0
  {
    match d
    case Nil => Ok(Nil)
    case Cons(k, v, rest) =>
      if skip && k == "$ref" then Children(doc, all, rest, seen, skip)
      else
        var first := if v.Obj? then Resolved(doc, all, v.fields, seen) else Ok(Nil);
        if first.Err? then first
        else
          var others := Children(doc, all, rest, seen, skip);
          if others.Err? then others
          else Ok(Cons(k, if v.Obj? then Obj(first.value) else v, others.value))
  }

  class Resolver {
    const doc: Document
    ghost const all: set<string>
    var seen: set<string>

    ghost predicate Valid()
      reads this
    {
      DocumentRefs(doc) <= all
    }

    constructor (doc: Document, ghost all: set<string>)
      requires DocumentRefs(doc) <= all
      ensures Valid() && seen == {} && this.doc == doc && this.all == all
    {
      this.doc, this.all, seen := doc, all, {};
    }

    /** `resolve` on a dictionary: the reference is open exactly while its target is being resolved. */
    method Resolve(d: Fields) returns (r: Result<Fields, RefError>)
      requires Valid() && FieldRefs(d) <= all
      modifies this`seen
      ensures r == Resolved(doc, all, d, old(seen))
      ensures r.Ok? ==> seen == old(seen)
      decreases |all - seen|, d, 1
    {
      var ref := RefOf(d);
      if ref.None? {
        r := ResolveChildren(d, false);
        return;
      }
      var target := Target(doc, ref.value);
      if target.Err? { return Err(target.error); }
      if ref.value in seen { return Err(Cyclic(ref.value)); }
      RefOfOccurs(d);
      TargetRefs(doc, ref.value);
      FewerLeft(all, seen, ref.value);
      seen := seen + {ref.value};
      r := Resolve(target.value);
      if r.Err? { return; }
      seen := seen - {ref.value};
      assert seen == old(seen);
      var siblings := ResolveChildren(d, true);
      if siblings.Err? { return siblings; }
      r := Ok(Override(r.value, siblings.value));
    }

    method ResolveChildren(d: Fields, skip: bool) returns (r: Result<Fields, RefError>)
      requires Valid() && FieldRefs(d) <= all
      modifies this`seen
      ensures r == Children(doc, all, d, old(seen), skip)
      ensures r.Ok? ==> seen == old(seen)
      decreases |all - seen|, d, 0
    {
      match d {
        case Nil => return Ok(Nil);
        case Cons(k, v, rest) =>
          if skip && k == "$ref" {
            r := ResolveChildren(rest, skip);
            return;
          }
          var value := v;
          if v.Obj? {
            var first := Resolve(v.fields);
            if first.Err? { return first; }
            value := Obj(first.value);
          }
          var others := ResolveChildren(rest, skip);
          if others.Err? { return others; }
          r := Ok(Cons(k, value, others.value));
      }
    }

    /** The outer loops: every schema in turn, until one fails. Nothing stays open between two. */
    method ResolveAll(values: seq<Fields>) returns (results: seq<Fields>, error: Option<RefError>)
      requires Valid() && seen == {} && forall i | 0 <= i < |values| :: FieldRefs(values[i]) <= all
      modifies this`seen
      ensures error.None? ==> |results| == |values| && seen == {}
      ensures |results| <= |values| && forall i | 0 <= i < |results| ::
                Resolved(doc, all, values[i], {}) == Ok(results[i])
      ensures error.Some? ==> |results| < |values| && Resolved(doc, all, values[|results|], {}) == Err(error.value)
    {
      results := [];
      for i := 0 to |values|
        invariant |results| == i && seen == {}
        invariant forall j | 0 <= j < i :: Resolved(doc, all, values[j], {}) == Ok(results[j])
      {
        var r := Resolve(values[i]);
        if r.Err? { return results, Some(r.error); }
        results := results + [r.value];
      }
      error := None;
    }
  }

  // ---------------------------------------------------------------- no reference is left

  predicate RefFree(v: Json) {
    v.Obj? ==> FieldsFree(v.fields)
  }

  /** No string `$ref` here or in any dictionary nested in this one. */
  predicate FieldsFree(d: Fields) {
    match d
    case Nil => true
    case Cons(k, v, rest) => !(k == "$ref" && v.Str?) && RefFree(v) && FieldsFree(rest)
  }

  lemma {:induction false} GetFree(d: Fields, key: string)
    requires FieldsFree(d)
    ensures Get(d, key).Some? ==> RefFree(Get(d, key).value) && !(key == "$ref" && Get(d, key).value.Str?)
  {
    match d
    case Nil =>
    case Cons(k, _, rest) => if k != key { GetFree(rest, key); }
  }

  lemma {:induction false} DropFree(d: Fields, key: string)
    requires FieldsFree(d)
    ensures FieldsFree(Drop(d, key))
  {
    if d.Cons? { DropFree(d.rest, key); }
  }

  lemma {:induction false} OverrideFree(a: Fields, b: Fields)
    requires FieldsFree(a) && FieldsFree(b)
    ensures FieldsFree(Override(a, b))
    decreases a
  {
    match a
    case Nil =>
    case Cons(k, v, rest) =>
      GetFree(b, k);
      DropFree(b, k);
      OverrideFree(rest, Drop(b, k));
  }

  lemma {:induction false} GetDropped(d: Fields, dropped: string, key: string)
    ensures Get(Drop(d, dropped), key) == if key == dropped then None else Get(d, key)
  {
    if d.Cons? { GetDropped(d.rest, dropped, key); }
  }

  /** A sibling of a reference wins over what the reference brings, and everything else of both stays. */
  lemma {:induction false} SiblingsWin(a: Fields, b: Fields, key: string)
    ensures Get(Override(a, b), key) == if Get(b, key).Some? then Get(b, key) else Get(a, key)
    decreases a
  {
    match a
    case Nil =>
    case Cons(k, _, rest) =>
      GetDropped(b, k, key);
      SiblingsWin(rest, Drop(b, k), key);
  }

  lemma {:induction false} NameOf(prefix: string, name: string)
    requires '/' !in name && prefix != "" && prefix[|prefix| - 1] == '/'
    ensures Name(prefix + name) == name
  {
    var path := prefix + name;
    var n := NameStart(path);
    assert path[|prefix| - 1] == '/';
    assert forall i | |prefix| <= i < |path| :: path[i] in name;
    assert n == |prefix|;
  }

  /** A reference leads to the dictionary of that name among the schemas or the responses, and to nothing else. */
  lemma {:induction false} TargetExact(doc: Document, name: string, ref: string)
    requires '/' !in name
    ensures var r := Target(doc, "#/components/schemas/" + name);
            if Get(doc.schemas, name).Some? && Get(doc.schemas, name).value.Obj?
            then r == Ok(Get(doc.schemas, name).value.fields)
            else r == Err(Unresolved("#/components/schemas/" + name))
    ensures var r := Target(doc, "#/components/responses/" + name);
            if Get(doc.responses, name).Some? && Get(doc.responses, name).value.Obj?
            then r == Ok(Get(doc.responses, name).value.fields)
            else r == Err(Unresolved("#/components/responses/" + name))
    ensures Target(doc, ref) == Err(Unsupported(ref)) <==>
            forall rest :: ref != "#/components/schemas/" + rest && ref != "#/components/responses/" + rest
  {
    var schemas, responses := "#/components/schemas/", "#/components/responses/";
    NameOf(schemas, name);
    NameOf(responses, name);
    assert schemas[13] == 's' && responses[13] == 'r';
    assert (responses + name)[13] == 'r';
    if StartsWith(ref, schemas) { assert ref == schemas + ref[|schemas|..]; }
    if StartsWith(ref, responses) { assert ref == responses + ref[|responses|..]; }
  }

  /** The dictionaries of a parsed document have no key twice, at any depth. */
  predicate Unique(d: Fields) {
    match d
    case Nil => true
    case Cons(k, v, rest) => Get(rest, k).None? && (v.Obj? ==> Unique(v.fields)) && Unique(rest)
  }

  predicate UniqueDocument(doc: Document) {
    Unique(doc.schemas) && Unique(doc.responses)
  }

  lemma {:induction false} GetUnique(d: Fields, key: string)
    requires Unique(d)
    ensures Get(d, key).Some? && Get(d, key).value.Obj? ==> Unique(Get(d, key).value.fields)
  {
    if d.Cons? && d.key != key { GetUnique(d.rest, key); }
  }

  lemma {:induction false} TargetUnique(doc: Document, ref: string)
    requires UniqueDocument(doc)
    ensures Target(doc, ref).Ok? ==> Unique(Target(doc, ref).value)
  {
    GetUnique(doc.schemas, Name(ref));
    GetUnique(doc.responses, Name(ref));
  }

  /** No entry of this dictionary itself is a string `$ref`. */
  predicate NotARef(d: Fields) {
    d.Cons? ==> !(d.key == "$ref" && d.value.Str?) && NotARef(d.rest)
  }

  lemma {:induction false} UniqueNotARef(d: Fields)
    requires Unique(d)
    ensures RefOf(d).None? ==> NotARef(d)
    ensures Get(d, "$ref").None? ==> NotARef(d)
  {
    if d.Cons? { UniqueNotARef(d.rest); }
  }

  /** A successful resolution leaves no string `$ref` at any dictionary position. */
  lemma {:induction false} ResolvedIsFree(doc: Document, all: set<string>, d: Fields, seen: set<string>)
    requires DocumentRefs(doc) <= all && FieldRefs(d) <= all && UniqueDocument(doc) && Unique(d)
    ensures Resolved(doc, all, d, seen).Ok? ==> FieldsFree(Resolved(doc, all, d, seen).value)
    decreases |all - seen|, d, 1
  {
    var ref := RefOf(d);
    UniqueNotARef(d);
    if ref.None? {
      ChildrenAreFree(doc, all, d, seen, false);
    } else if Target(doc, ref.value).Ok? && ref.value !in seen {
      var target := Target(doc, ref.value).value;
      RefOfOccurs(d);
      TargetRefs(doc, ref.value);
      TargetUnique(doc, ref.value);
      FewerLeft(all, seen, ref.value);
      ResolvedIsFree(doc, all, target, seen + {ref.value});
      ChildrenAreFree(doc, all, d, seen, true);
      RefIsFree(doc, all, d, seen);
    }
  }

  lemma {:induction false} RefIsFree(doc: Document, all: set<string>, d: Fields, seen: set<string>)
    requires DocumentRefs(doc) <= all && FieldRefs(d) <= all
    requires RefOf(d).Some? && Target(doc, RefOf(d).value).Ok? && RefOf(d).value !in seen
    requires FieldRefs(Target(doc, RefOf(d).value).value) <= all
    requires var first := Resolved(doc, all, Target(doc, RefOf(d).value).value, seen + {RefOf(d).value}); first.Ok? ==>
             FieldsFree(first.value)
    requires var siblings := Children(doc, all, d, seen, true); siblings.Ok? ==> FieldsFree(siblings.value)
    ensures Resolved(doc, all, d, seen).Ok? ==> FieldsFree(Resolved(doc, all, d, seen).value)
  {
    var first := Resolved(doc, all, Target(doc, RefOf(d).value).value, seen + {RefOf(d).value});
    var siblings := Children(doc, all, d, seen, true);
    if first.Ok? && siblings.Ok? { OverrideFree(first.value, siblings.value); }
  }

  lemma {:induction false} ChildrenAreFree(doc: Document, all: set<string>, d: Fields, seen: set<string>, skip: bool)
    requires DocumentRefs(doc) <= all && FieldRefs(d) <= all && UniqueDocument(doc) && Unique(d) && (skip || NotARef(d))
    ensures Children(doc, all, d, seen, skip).Ok? ==> FieldsFree(Children(doc, all, d, seen, skip).value)
    decreases |all - seen|, d, 0
  {
    match d
    case Nil =>
    case Cons(k, v, rest) =>
      if v.Obj? { ResolvedIsFree(doc, all, v.fields, seen); }
      ChildrenAreFree(doc, all, rest, seen, skip);
  }

  // ---------------------------------------------------------------- unfolding

  /** Replace every reference by its target, following at most `n` on any path; None when
      that is not enough. No record is kept of what is open. */
  function Unfold(doc: Document, d: Fields, n: nat): Option<Result<Fields, RefError>>
    decreases n, d, 1
  {
    var ref := RefOf(d);
    if ref.None? then UnfoldChildren(doc, d, n, false)
    else
      match Target(doc, ref.value)
      case Err(e) => Some(Err(e))
      case Ok(target) =>
        if n == 0 then None
        else
          var resolved := Unfold(doc, target, n - 1);
          if resolved.None? || resolved.value.Err? then resolved
          else
            var siblings := UnfoldChildren(doc, d, n, true);
            if siblings.None? || siblings.value.Err? then siblings
            else Some(Ok(Override(resolved.value.value, siblings.value.value)))
  }

  function UnfoldChildren(doc: Document, d: Fields, n: nat, skip: bool): Option<Result<Fields, RefError>>
    decreases n, d, 0
  {
    match d
    case Nil => Some(Ok(Nil))
    case Cons(k, v, rest) =>
      if skip && k == "$ref" then UnfoldChildren(doc, rest, n, skip)
      else
        var first := if v.Obj? then Unfold(doc, v.fields, n) else Some(Ok(Nil));
        if first.None? || first.value.Err? then first
        else
          var others := UnfoldChildren(doc, rest, n, skip);
          if others.None? || others.value.Err? then others
          else Some(Ok(Cons(k, if v.Obj? then Obj(first.value.value) else v, others.value.value)))
  }

  predicate IsCycle(r: Result<Fields, RefError>) {
    r.Err? && r.error.Cyclic?
  }

  /** Following more references does not change a finished unfolding. */
  lemma {:induction false} UnfoldStable(doc: Document, d: Fields, n: nat, m: nat)
    requires n <= m && Unfold(doc, d, n).Some?
    ensures Unfold(doc, d, m) == Unfold(doc, d, n)
    decreases n, d, 1
  {
    var ref := RefOf(d);
    if ref.None? {
      UnfoldChildrenStable(doc, d, n, m, false);
    } else if Target(doc, ref.value).Ok? {
      UnfoldStable(doc, Target(doc, ref.value).value, n - 1, m - 1);
      if Unfold(doc, Target(doc, ref.value).value, n - 1).value.Ok? { UnfoldChildrenStable(doc, d, n, m, true); }
    }
  }

  lemma {:induction false} UnfoldChildrenStable(doc: Document, d: Fields, n: nat, m: nat, skip: bool)
    requires n <= m && UnfoldChildren(doc, d, n, skip).Some?
    ensures UnfoldChildren(doc, d, m, skip) == UnfoldChildren(doc, d, n, skip)
    decreases n, d, 0
  {
    match d
    case Nil =>
    case Cons(k, v, rest) =>
      if skip && k == "$ref" {
        UnfoldChildrenStable(doc, rest, n, m, skip);
      } else {
        if v.Obj? { UnfoldStable(doc, v.fields, n, m); }
        if v.Obj? ==> Unfold(doc, v.fields, n).value.Ok? { UnfoldChildrenStable(doc, rest, n, m, skip); }
      }
  }

  /** Unless it reports a cycle, the resolver computes the unfolding, which then is finite. */
  lemma {:induction false} ResolvedUnfolds(doc: Document, all: set<string>, d: Fields, seen: set<string>, n: nat)
    requires DocumentRefs(doc) <= all && FieldRefs(d) <= all && n >= |all - seen|
    ensures IsCycle(Resolved(doc, all, d, seen)) || Unfold(doc, d, n) == Some(Resolved(doc, all, d, seen))
    decreases |all - seen|, d, 1
  {
    var ref := RefOf(d);
    if ref.None? {
      ChildrenUnfold(doc, all, d, seen, n, false);
    } else if Target(doc, ref.value).Ok? && ref.value !in seen {
      var target := Target(doc, ref.value).value;
      RefOfOccurs(d);
      TargetRefs(doc, ref.value);
      FewerLeft(all, seen, ref.value);
      ResolvedUnfolds(doc, all, target, seen + {ref.value}, n - 1);
      ChildrenUnfold(doc, all, d, seen, n, true);
      RefUnfolds(doc, all, d, seen, n);
    } else {
      RefEnds(doc, all, d, seen, n);
    }
  }

  lemma {:induction false} RefEnds(doc: Document, all: set<string>, d: Fields, seen: set<string>, n: nat)
    requires DocumentRefs(doc) <= all && FieldRefs(d) <= all && RefOf(d).Some?
    requires Target(doc, RefOf(d).value).Err? || RefOf(d).value in seen
    ensures IsCycle(Resolved(doc, all, d, seen)) || Unfold(doc, d, n) == Some(Resolved(doc, all, d, seen))
  {}

  lemma {:induction false} RefUnfolds(doc: Document, all: set<string>, d: Fields, seen: set<string>, n: nat)
    requires DocumentRefs(doc) <= all && FieldRefs(d) <= all && n > 0
    requires RefOf(d).Some? && Target(doc, RefOf(d).value).Ok? && RefOf(d).value !in seen
    requires FieldRefs(Target(doc, RefOf(d).value).value) <= all
    requires var first := Resolved(doc, all, Target(doc, RefOf(d).value).value, seen + {RefOf(d).value});
             IsCycle(first) || Unfold(doc, Target(doc, RefOf(d).value).value, n - 1) == Some(first)
    requires var siblings := Children(doc, all, d, seen, true);
             IsCycle(siblings) || UnfoldChildren(doc, d, n, true) == Some(siblings)
    ensures IsCycle(Resolved(doc, all, d, seen)) || Unfold(doc, d, n) == Some(Resolved(doc, all, d, seen))
  {}

  lemma {:induction false} ChildrenUnfold(doc: Document, all: set<string>, d: Fields, seen: set<string>, n: nat,
                                          skip: bool)
    requires DocumentRefs(doc) <= all && FieldRefs(d) <= all && n >= |all - seen|
    ensures IsCycle(Children(doc, all, d, seen, skip)) ||
            UnfoldChildren(doc, d, n, skip) == Some(Children(doc, all, d, seen, skip))
    decreases |all - seen|, d, 0
  {
    match d
    case Nil =>
    case Cons(k, v, rest) =>
      if v.Obj? { ResolvedUnfolds(doc, all, v.fields, seen, n); }
      ChildrenUnfold(doc, all, rest, seen, n, skip);
  }

  /** None of the open references can be unfolded with fewer than `n` steps. */
  ghost predicate OpenAbove(doc: Document, seen: set<string>, n: nat) {
    forall s | s in seen && Target(doc, s).Ok? :: n == 0 || Unfold(doc, Target(doc, s).value, n - 1).None?
  }

  lemma {:induction false} LeastUnfolding(doc: Document, d: Fields, n: nat) returns (m: nat)
    requires Unfold(doc, d, n).Some?
    ensures m <= n && Unfold(doc, d, m).Some? && (m == 0 || Unfold(doc, d, m - 1).None?)
  {
    m := n;
    while m > 0 && Unfold(doc, d, m - 1).Some?
      invariant m <= n && Unfold(doc, d, m).Some?
    {
      m := m - 1;
    }
  }

  lemma {:induction false} UnfoldLess(doc: Document, d: Fields, m: nat, n: nat)
    requires m <= n && Unfold(doc, d, n).None?
    ensures Unfold(doc, d, m).None?
  {
    if Unfold(doc, d, m).Some? { UnfoldStable(doc, d, m, n); }
  }

  lemma {:induction false} OpenAboveLess(doc: Document, seen: set<string>, n: nat, m: nat)
    requires OpenAbove(doc, seen, n) && m <= n
    ensures OpenAbove(doc, seen, m)
  {
    if m > 0 {
      forall s | s in seen && Target(doc, s).Ok? ensures Unfold(doc, Target(doc, s).value, m - 1).None? {
        UnfoldLess(doc, Target(doc, s).value, m - 1, n - 1);
      }
    }
  }

  /** What a finite unfolding of a reference consists of. */
  lemma {:induction false} UnfoldedRef(doc: Document, d: Fields, n: nat)
    requires RefOf(d).Some? && Target(doc, RefOf(d).value).Ok? && Unfold(doc, d, n).Some?
    ensures n > 0 && Unfold(doc, Target(doc, RefOf(d).value).value, n - 1).Some?
    ensures Unfold(doc, Target(doc, RefOf(d).value).value, n - 1).value.Ok? ==> UnfoldChildren(doc, d, n, true).Some?
  {}

  /** What keeps the resolution of a reference free of cycles. */
  lemma {:induction false} RefNotCyclic(doc: Document, all: set<string>, d: Fields, seen: set<string>)
    requires DocumentRefs(doc) <= all && FieldRefs(d) <= all
    requires RefOf(d).Some? && Target(doc, RefOf(d).value).Ok? && RefOf(d).value !in seen
    requires FieldRefs(Target(doc, RefOf(d).value).value) <= all
    requires var first := Resolved(doc, all, Target(doc, RefOf(d).value).value, seen + {RefOf(d).value});
             !IsCycle(first) && (first.Ok? ==> !IsCycle(Children(doc, all, d, seen, true)))
    ensures !IsCycle(Resolved(doc, all, d, seen))
  {}

  /** A finite unfolding never meets an open reference again. */
  lemma {:induction false} FiniteIsNotCyclic(doc: Document, all: set<string>, d: Fields, seen: set<string>, n: nat)
    requires DocumentRefs(doc) <= all && FieldRefs(d) <= all
    requires Unfold(doc, d, n).Some? && OpenAbove(doc, seen, n)
    ensures !IsCycle(Resolved(doc, all, d, seen))
    decreases n, d, 1
  {
    var ref := RefOf(d);
    if ref.None? {
      FiniteChildren(doc, all, d, seen, n, false);
    } else if Target(doc, ref.value).Ok? {
      var target := Target(doc, ref.value).value;
      UnfoldedRef(doc, d, n);
      TargetRefs(doc, ref.value);
      var m := LeastUnfolding(doc, target, n - 1);
      OpenAboveLess(doc, seen, n, m);
      FiniteIsNotCyclic(doc, all, target, seen + {ref.value}, m);
      AgreeOnFinite(doc, all, target, seen + {ref.value}, n - 1);
      if Unfold(doc, target, n - 1).value.Ok? { FiniteChildren(doc, all, d, seen, n, true); }
      RefNotCyclic(doc, all, d, seen);
    }
  }

  lemma {:induction false} FiniteChildren(doc: Document, all: set<string>, d: Fields, seen: set<string>, n: nat,
                                          skip: bool)
    requires DocumentRefs(doc) <= all && FieldRefs(d) <= all
    requires UnfoldChildren(doc, d, n, skip).Some? && OpenAbove(doc, seen, n)
    ensures !IsCycle(Children(doc, all, d, seen, skip))
    decreases n, d, 0
  {
    match d
    case Nil =>
    case Cons(k, v, rest) =>
      if skip && k == "$ref" {
        FiniteChildren(doc, all, rest, seen, n, skip);
      } else {
        if v.Obj? {
          FiniteIsNotCyclic(doc, all, v.fields, seen, n);
          AgreeOnFinite(doc, all, v.fields, seen, n);
        }
        if v.Obj? ==> Unfold(doc, v.fields, n).value.Ok? { FiniteChildren(doc, all, rest, seen, n, skip); }
      }
  }

  /** A resolution without a cycle and a finite unfolding give the same result. */
  lemma {:induction false} AgreeOnFinite(doc: Document, all: set<string>, d: Fields, seen: set<string>, n: nat)
    requires DocumentRefs(doc) <= all && FieldRefs(d) <= all
    requires Unfold(doc, d, n).Some? && !IsCycle(Resolved(doc, all, d, seen))
    ensures Unfold(doc, d, n) == Some(Resolved(doc, all, d, seen))
  {
    var m := n + |all - seen|;
    ResolvedUnfolds(doc, all, d, seen, m);
    UnfoldStable(doc, d, n, m);
  }

  /** The resolver reports a cycle exactly when the unfolding never ends; otherwise its
      result, be it a dictionary or another error, is the unfolding. */
  lemma {:induction false} ResolveIsUnfolding(doc: Document, all: set<string>, d: Fields)
    requires DocumentRefs(doc) <= all && FieldRefs(d) <= all
    ensures IsCycle(Resolved(doc, all, d, {})) <==> forall n: nat :: Unfold(doc, d, n).None?
    ensures forall n: nat | Unfold(doc, d, n).Some? :: Unfold(doc, d, n) == Some(Resolved(doc, all, d, {}))
  {
    ResolvedUnfolds(doc, all, d, {}, |all|);
    assert all - {} == all;
    forall n: nat | Unfold(doc, d, n).Some?
      ensures !IsCycle(Resolved(doc, all, d, {})) && Unfold(doc, d, n) == Some(Resolved(doc, all, d, {})) {
      FiniteIsNotCyclic(doc, all, d, {}, n);
      AgreeOnFinite(doc, all, d, {}, n);
    }
  }
}
