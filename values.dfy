/**
 * The JSON-like values the helpers inspect and copy: `typeOf`, `isArray`, `isEmptyObj` and
 * `deepCopy`. Arrays and plain objects live on the heap (`JsArray`, `JsObject`) so that a copy can
 * be told apart from its original; every other kind is an immutable value.
 */
module Values {
  import opened Wrappers
  import opened Chars

  /** Kinds whose `Object.prototype.toString` tag is not one of the ten that `typeOf` knows. */
  datatype HostClass = SymbolValue | MapObject | SetObject | ErrorObject | PromiseObject

  datatype Value =
    | Undefined
    | Null
    | Bool(b: bool)
    | Num(n: int)
    | Str(s: string)
    | Func(name: string)
    | Date(time: int)
    | RegExp(source: string)
    | Arr(arr: JsArray)
    | Obj(obj: JsObject)
    | Host(cls: HostClass, ownNames: set<string>)

  /** An array object: its elements in index order. */
  class JsArray {
    var items: seq<Value>

    constructor ()
      ensures items == []
    {
      items := [];
    }
  }

  /** A plain object: its own enumerable properties. Non-enumerable own properties, which
      `Object.getOwnPropertyNames` would also list, cannot be represented. */
  class JsObject {
    var props: map<string, Value>

    constructor ()
      ensures props == map[]
    {
      props := map[];
    }
  }

  /** The heap objects a value refers to directly. */
  function Refs(v: Value): set<object>
  {
    match v
    case Arr(a) => {a}
    case Obj(o) => {o}
    case _ => {}
  }

  // ---------------------------------------------------------------------------------------------
  // typeOf

  /** `Object.prototype.toString.call(v)` */
  function Tag(v: Value): string
  {
    match v
    case Undefined => "[object Undefined]"
    case Null => "[object Null]"
    case Bool(_) => "[object Boolean]"
    case Num(_) => "[object Number]"
    case Str(_) => "[object String]"
    case Func(_) => "[object Function]"
    case Date(_) => "[object Date]"
    case RegExp(_) => "[object RegExp]"
    case Arr(_) => "[object Array]"
    case Obj(_) => "[object Object]"
    case Host(cls, _) =>
      match cls
      case SymbolValue => "[object Symbol]"
      case MapObject => "[object Map]"
      case SetObject => "[object Set]"
      case ErrorObject => "[object Error]"
      case PromiseObject => "[object Promise]"
  }

  /** The lookup table of `typeOf`. */
  const TypeNames: map<string, string> := map[
    "[object Boolean]" := "boolean",
    "[object Number]" := "number",
    "[object String]" := "string",
    "[object Function]" := "function",
    "[object Array]" := "array",
    "[object Date]" := "date",
    "[object RegExp]" := "regExp",
    "[object Undefined]" := "undefined",
    "[object Null]" := "null",
    "[object Object]" := "object"
  ]

  /** `typeOf`: the table entry for the value's tag; `None` stands for the `undefined` a missing
      entry gives. */
  function TypeOf(v: Value): (r: Option<string>)
    ensures r.Some? <==> !v.Host?
  {
    if Tag(v) in TypeNames then Some(TypeNames[Tag(v)]) else None
  }

  /** Two values of the same kind, whatever their contents. */
  predicate SameKind(a: Value, b: Value)
  {
    (a.Undefined? && b.Undefined?) || (a.Null? && b.Null?) || (a.Bool? && b.Bool?) ||
    (a.Num? && b.Num?) || (a.Str? && b.Str?) || (a.Func? && b.Func?) || (a.Date? && b.Date?) ||
    (a.RegExp? && b.RegExp?) || (a.Arr? && b.Arr?) || (a.Obj? && b.Obj?)
  }

  /** `typeOf` names each of the ten kinds differently, and names kinds, not contents. */
  lemma TypeOfSeparatesKinds(a: Value, b: Value)
    requires !a.Host? && !b.Host?
    ensures TypeOf(a) == TypeOf(b) <==> SameKind(a, b)
  {
  }

  /** The name `typeOf` gives each of the ten kinds it knows. */
  lemma TypeOfNames(v: Value)
    ensures v.Bool? ==> TypeOf(v) == Some("boolean")
    ensures v.Num? ==> TypeOf(v) == Some("number")
    ensures v.Str? ==> TypeOf(v) == Some("string")
    ensures v.Func? ==> TypeOf(v) == Some("function")
    ensures v.Arr? ==> TypeOf(v) == Some("array")
    ensures v.Date? ==> TypeOf(v) == Some("date")
    ensures v.RegExp? ==> TypeOf(v) == Some("regExp")
    ensures v.Undefined? ==> TypeOf(v) == Some("undefined")
    ensures v.Null? ==> TypeOf(v) == Some("null")
    ensures v.Obj? ==> TypeOf(v) == Some("object")
    ensures v.Host? ==> TypeOf(v) == None
  {
  }

  /** `typeOf(v) === 'array'` exactly for arrays, `'object'` exactly for plain objects. */
  lemma TypeOfContainers(v: Value)
    ensures TypeOf(v) == Some("array") <==> v.Arr?
    ensures TypeOf(v) == Some("object") <==> v.Obj?
  {
  }

  // ---------------------------------------------------------------------------------------------
  // isArray

  /** `!v`: the falsy values among the modelled kinds. */
  predicate Falsy(v: Value)
  {
    v.Undefined? || v.Null? || v == Bool(false) || v == Num(0) || v == Str("")
  }

  /** `isArray`: falsy values first, then `Array.isArray` when the host has it and the tag
      comparison otherwise. Both branches agree. */
  function IsArray(v: Value, hasArrayIsArray: bool): (r: bool)
    ensures r <==> v.Arr?
  {
    if Falsy(v) then false
    else if hasArrayIsArray then v.Arr?
    else Tag(v) == "[object Array]"
  }

  // ---------------------------------------------------------------------------------------------
  // isEmptyObj

  /** The names of the indices `0 .. n - 1`. */
  function IndexNames(n: nat): set<string>
  {
    set i | 0 <= i < n :: Decimal(i)
  }

  /** `Object.getOwnPropertyNames(v)` as a set. `undefined` and `null` throw a `TypeError`;
      other primitives are first wrapped in their object. */
  function OwnPropertyNames(v: Value): (r: Outcome<set<string>>)
    reads Refs(v)
    ensures r.Throws? <==> v.Undefined? || v.Null?
    ensures (v.Arr? || v.Str? || v.Func? || v.RegExp?) ==> r.Returns? && r.value != {}
    ensures v.Obj? ==> r == Returns(v.obj.props.Keys)
  {
    match v
    case Undefined => Throws("TypeError")
    case Null => Throws("TypeError")
    case Bool(_) => Returns({})
    case Num(_) => Returns({})
    // counted in characters; JavaScript counts UTF-16 code units, which differs only in how many
    // index names there are, never in whether there are any
    case Str(s) => Returns(IndexNames(|s|) + {"length"})
    case Func(_) => Returns({"length", "name", "prototype"})
    case Date(_) => Returns({})
    case RegExp(_) => Returns({"lastIndex"})
    case Arr(a) => Returns(IndexNames(|a.items|) + {"length"})
    case Obj(o) => Returns(o.props.Keys)
    case Host(_, names) => Returns(names)
  }

  /** `isEmptyObj`: whether the value has no own property names. */
  function IsEmptyObj(v: Value): (r: Outcome<bool>)
    reads Refs(v)
  {
    match OwnPropertyNames(v)
    case Throws(e) => Throws(e)
    case Returns(names) => Returns(|names| == 0)
  }

  /** `isEmptyObj` throws on `undefined` and `null`, holds of a plain object exactly when it has no
      properties, is false for arrays, strings, functions and regular expressions (their `length`
      or `lastIndex`), and true for numbers, booleans and dates. */
  lemma IsEmptyObjCases(v: Value)
    ensures IsEmptyObj(v).Throws? <==> v.Undefined? || v.Null?
    ensures v.Obj? ==> (IsEmptyObj(v) == Returns(true) <==> v.obj.props == map[])
    ensures (v.Arr? || v.Str? || v.Func? || v.RegExp?) ==> IsEmptyObj(v) == Returns(false)
    ensures (v.Num? || v.Bool? || v.Date?) ==> IsEmptyObj(v) == Returns(true)
    ensures v.Host? ==> (IsEmptyObj(v) == Returns(true) <==> v.ownNames == {})
  {
    if v.Obj? && |v.obj.props.Keys| == 0 {
      assert v.obj.props == map[];
    }
  }

  // ---------------------------------------------------------------------------------------------
  // deepCopy

  /** A value whose containers, down to `depth` levels, all lie in `region`. Cyclic values have no
      finite depth. */
  ghost predicate Within(v: Value, region: set<object>, depth: nat)
    reads region
    decreases depth
  {
    match v
    case Arr(a) =>
      depth > 0 && a in region && forall i :: 0 <= i < |a.items| ==> Within(a.items[i], region, depth - 1)
    case Obj(o) =>
      depth > 0 && o in region && forall k :: k in o.props ==> Within(o.props[k], region, depth - 1)
    case _ => true
  }

  /** The tree a value denotes, with heap identity forgotten: what a copy must reproduce. */
  datatype Tree = Leaf(v: Value) | List(elems: seq<Tree>) | Record(fields: map<string, Tree>)

  ghost function View(v: Value, region: set<object>, depth: nat): Tree
    requires Within(v, region, depth)
    reads region
    decreases depth, 0
  {
    match v
    case Arr(a) => List(ViewSeq(a.items, region, depth - 1))
    case Obj(o) => Record(ViewMap(o.props, region, depth - 1))
    case _ => Leaf(v)
  }

  ghost function ViewMap(props: map<string, Value>, region: set<object>, depth: nat): (r: map<string, Tree>)
    requires forall k :: k in props ==> Within(props[k], region, depth)
    reads region
    ensures r.Keys == props.Keys
    ensures forall k :: k in props ==> r[k] == View(props[k], region, depth)
    decreases depth, 1
  {
    map k | k in props :: View(props[k], region, depth)
  }

  ghost function ViewSeq(items: seq<Value>, region: set<object>, depth: nat): (r: seq<Tree>)
    requires forall i :: 0 <= i < |items| ==> Within(items[i], region, depth)
    reads region
    ensures |r| == |items|
    ensures forall i :: 0 <= i < |items| ==> r[i] == View(items[i], region, depth)
    decreases depth, |items| + 1
  {
    if items == [] then []
    else ViewSeq(items[..|items| - 1], region, depth) + [View(items[|items| - 1], region, depth)]
  }

  /** Enlarging the region changes neither membership nor the view. */
  lemma {:induction false} WithinGrow(v: Value, region: set<object>, larger: set<object>, depth: nat)
    requires Within(v, region, depth) && region <= larger
    ensures Within(v, larger, depth) && View(v, larger, depth) == View(v, region, depth)
    decreases depth
  {
    match v
    case Arr(a) =>
      forall i | 0 <= i < |a.items|
        ensures Within(a.items[i], larger, depth - 1)
        ensures View(a.items[i], larger, depth - 1) == View(a.items[i], region, depth - 1)
      {
        WithinGrow(a.items[i], region, larger, depth - 1);
      }
      assert ViewSeq(a.items, larger, depth - 1) == ViewSeq(a.items, region, depth - 1);
    case Obj(o) =>
      forall k | k in o.props
        ensures Within(o.props[k], larger, depth - 1)
        ensures View(o.props[k], larger, depth - 1) == View(o.props[k], region, depth - 1)
      {
        WithinGrow(o.props[k], region, larger, depth - 1);
      }
    case _ =>
  }

  /** `deepCopy`: arrays and plain objects are rebuilt in fresh containers, element by element and
      key by key; every other kind is returned as it is. */
  method DeepCopy(data: Value, ghost region: set<object>, ghost depth: nat)
    returns (copy: Value, ghost copyRegion: set<object>)
    requires Within(data, region, depth)
    ensures fresh(copyRegion) && copyRegion !! region
    ensures Within(copy, copyRegion, depth)
    ensures View(copy, copyRegion, depth) == View(data, region, depth)
    ensures !data.Arr? && !data.Obj? ==> copy == data
    ensures data.Arr? ==> copy.Arr? && copy.arr != data.arr && |copy.arr.items| == |data.arr.items|
    ensures data.Obj? ==> copy.Obj? && copy.obj != data.obj && copy.obj.props.Keys == data.obj.props.Keys
    decreases depth, 1
  {
    TypeOfContainers(data);
    var t := TypeOf(data);
    if t == Some("array") {
      var o;
      o, copyRegion := CopyArray(data.arr, region, depth);
      copy := Arr(o);
    } else if t == Some("object") {
      var o;
      o, copyRegion := CopyObject(data.obj, region, depth);
      copy := Obj(o);
    } else {
      copy, copyRegion := data, {};
    }
  }

  /** The array branch: a fresh array and one `push` of a copied element per index. */
  method CopyArray(src: JsArray, ghost region: set<object>, ghost depth: nat)
    returns (o: JsArray, ghost copyRegion: set<object>)
    requires Within(Arr(src), region, depth)
    ensures fresh(copyRegion) && copyRegion !! region && o in copyRegion
    ensures Within(Arr(o), copyRegion, depth)
    ensures View(Arr(o), copyRegion, depth) == View(Arr(src), region, depth)
    ensures o != src && |o.items| == |src.items|
    decreases depth, 0
  {
    var items := src.items;
    ghost var target := ViewSeq(items, region, depth - 1);
    o := new JsArray();
    ghost var parts: set<object> := {};
    var i := 0;
    while i < |items|
      invariant 0 <= i <= |items| && |o.items| == i
      invariant fresh(parts) && o !in parts && parts !! region
      invariant CopiedElements(o.items, parts, target, depth - 1)
    {
      assert Within(items[i], region, depth - 1) && View(items[i], region, depth - 1) == target[i];
      parts := PushCopy(o, items[i], region, depth - 1, parts, target);
      i := i + 1;
    }
    copyRegion := parts + {o};
    CopiedElementsGrow(o.items, parts, copyRegion, target, depth - 1);
  }

  /** The copies made so far: each element lies in `parts` and has the view of its original. */
  ghost predicate CopiedElements(copies: seq<Value>, parts: set<object>, target: seq<Tree>, depth: nat)
    reads parts
  {
    |copies| <= |target| &&
    forall k :: 0 <= k < |copies| ==> Within(copies[k], parts, depth) && View(copies[k], parts, depth) == target[k]
  }

  lemma CopiedElementsPush(copies: seq<Value>, c: Value, parts: set<object>, r: set<object>,
                           target: seq<Tree>, depth: nat)
    requires CopiedElements(copies, parts, target, depth) && |copies| < |target|
    requires Within(c, r, depth) && View(c, r, depth) == target[|copies|]
    ensures CopiedElements(copies + [c], parts + r, target, depth)
  {
    GrowAll(copies, parts, parts + r, depth);
    WithinGrow(c, r, parts + r, depth);
  }

  lemma CopiedElementsGrow(copies: seq<Value>, parts: set<object>, larger: set<object>,
                           target: seq<Tree>, depth: nat)
    requires CopiedElements(copies, parts, target, depth) && |copies| == |target| && parts <= larger
    ensures CopiedElements(copies, larger, target, depth)
    ensures ViewSeq(copies, larger, depth) == target
  {
    GrowAll(copies, parts, larger, depth);
  }

  /** The object branch: a fresh object and one assignment of a copied value per own key. */
  method CopyObject(src: JsObject, ghost region: set<object>, ghost depth: nat)
    returns (o: JsObject, ghost copyRegion: set<object>)
    requires Within(Obj(src), region, depth)
    ensures fresh(copyRegion) && copyRegion !! region && o in copyRegion
    ensures Within(Obj(o), copyRegion, depth)
    ensures View(Obj(o), copyRegion, depth) == View(Obj(src), region, depth)
    ensures o != src && o.props.Keys == src.props.Keys
    decreases depth, 0
  {
    var props := src.props;
    ghost var target := ViewMap(props, region, depth - 1);
    o := new JsObject();
    ghost var parts := CopyFields(o, props, region, depth - 1, target);
    copyRegion := parts + {o};
    CopiedFieldsGrow(o.props, parts, copyRegion, target, depth - 1);
    RecordOfFields(o, copyRegion, target, depth);
  }

  /** The `for (var key in data)` loop: copies every property of `props` into the fresh `o`. */
  method CopyFields(o: JsObject, props: map<string, Value>, ghost region: set<object>, ghost depth: nat,
                    ghost target: map<string, Tree>)
    returns (ghost parts: set<object>)
    modifies o
    requires o.props == map[] && o !in region
    requires target.Keys == props.Keys
    requires forall k :: k in props ==> Within(props[k], region, depth) && View(props[k], region, depth) == target[k]
    ensures o.props.Keys == props.Keys
    ensures fresh(parts) && o !in parts && parts !! region
    ensures CopiedFields(o.props, parts, target, depth)
    decreases depth, 3
  {
    parts := {};
    var keys := props.Keys;
    while keys != {}
      invariant keys <= props.Keys && o.props.Keys == props.Keys - keys
      invariant fresh(parts) && o !in parts && parts !! region
      invariant CopiedFields(o.props, parts, target, depth)
      decreases keys
    {
      var key :| key in keys;
      parts := PutCopy(o, key, props[key], region, depth, parts, target);
      keys := keys - {key};
    }
  }

  /** An object whose properties are all copied is a record of those copies' views. */
  lemma RecordOfFields(o: JsObject, parts: set<object>, target: map<string, Tree>, depth: nat)
    requires depth > 0 && o in parts && o.props.Keys == target.Keys
    requires CopiedFields(o.props, parts, target, depth - 1)
    ensures Within(Obj(o), parts, depth) && View(Obj(o), parts, depth) == Record(target)
  {
  }

  /** The properties copied so far: each lies in `parts` and has the view of its original. */
  ghost predicate CopiedFields(copies: map<string, Value>, parts: set<object>, target: map<string, Tree>, depth: nat)
    reads parts
  {
    forall k :: k in copies ==>
      k in target && Within(copies[k], parts, depth) && View(copies[k], parts, depth) == target[k]
  }

  lemma CopiedFieldsPut(copies: map<string, Value>, key: string, c: Value, parts: set<object>,
                        r: set<object>, target: map<string, Tree>, depth: nat)
    requires CopiedFields(copies, parts, target, depth) && key in target
    requires Within(c, r, depth) && View(c, r, depth) == target[key]
    ensures CopiedFields(copies[key := c], parts + r, target, depth)
  {
    GrowMap(copies, parts, parts + r, depth);
    WithinGrow(c, r, parts + r, depth);
  }

  lemma CopiedFieldsGrow(copies: map<string, Value>, parts: set<object>, larger: set<object>,
                         target: map<string, Tree>, depth: nat)
    requires CopiedFields(copies, parts, target, depth) && copies.Keys == target.Keys && parts <= larger
    ensures CopiedFields(copies, larger, target, depth)
    ensures (map k | k in copies :: View(copies[k], larger, depth)) == target
  {
    GrowMap(copies, parts, larger, depth);
  }

  /** `o.push(deepCopy(v))` */
  method PushCopy(o: JsArray, v: Value, ghost region: set<object>, ghost depth: nat,
                  ghost parts: set<object>, ghost target: seq<Tree>)
    returns (ghost newParts: set<object>)
    modifies o
    requires o !in parts && parts !! region && CopiedElements(o.items, parts, target, depth)
    requires |o.items| < |target| && Within(v, region, depth) && View(v, region, depth) == target[|o.items|]
    ensures |o.items| == |old(o.items)| + 1 && o.items[..|o.items| - 1] == old(o.items)
    ensures parts <= newParts && fresh(newParts - parts) && o !in newParts && newParts !! region
    ensures CopiedElements(o.items, newParts, target, depth)
    decreases depth, 2
  {
    var c, r := DeepCopy(v, region, depth);
    CopiedElementsPush(o.items, c, parts, r, target, depth);
    o.items := o.items + [c];
    newParts := parts + r;
  }

  /** `o[key] = deepCopy(v)` */
  method PutCopy(o: JsObject, key: string, v: Value, ghost region: set<object>, ghost depth: nat,
                 ghost parts: set<object>, ghost target: map<string, Tree>)
    returns (ghost newParts: set<object>)
    modifies o
    requires o !in parts && parts !! region && CopiedFields(o.props, parts, target, depth)
    requires key in target && Within(v, region, depth) && View(v, region, depth) == target[key]
    ensures o.props.Keys == old(o.props.Keys) + {key}
    ensures parts <= newParts && fresh(newParts - parts) && o !in newParts && newParts !! region
    ensures CopiedFields(o.props, newParts, target, depth)
    decreases depth, 2
  {
    var c, r := DeepCopy(v, region, depth);
    CopiedFieldsPut(o.props, key, c, parts, r, target, depth);
    o.props := o.props[key := c];
    newParts := parts + r;
  }

  lemma GrowAll(items: seq<Value>, region: set<object>, larger: set<object>, depth: nat)
    requires region <= larger && forall k :: 0 <= k < |items| ==> Within(items[k], region, depth)
    ensures forall k :: 0 <= k < |items| ==>
      Within(items[k], larger, depth) && View(items[k], larger, depth) == View(items[k], region, depth)
  {
    forall k | 0 <= k < |items|
      ensures Within(items[k], larger, depth) && View(items[k], larger, depth) == View(items[k], region, depth)
    {
      WithinGrow(items[k], region, larger, depth);
    }
  }

  lemma GrowMap(props: map<string, Value>, region: set<object>, larger: set<object>, depth: nat)
    requires region <= larger && forall k :: k in props ==> Within(props[k], region, depth)
    ensures forall k :: k in props ==>
      Within(props[k], larger, depth) && View(props[k], larger, depth) == View(props[k], region, depth)
  {
    forall k | k in props
      ensures Within(props[k], larger, depth) && View(props[k], larger, depth) == View(props[k], region, depth)
    {
      WithinGrow(props[k], region, larger, depth);
    }
  }

  /** Mutating the copy leaves the original alone: emptying the copied array changes nothing that
      the original's view reads. */
  method CopyIsDetached(data: Value, ghost region: set<object>, ghost depth: nat) returns (copy: Value)
    requires Within(data, region, depth) && data.Arr?
    ensures copy.Arr? && copy.arr.items == []
    ensures Within(data, region, depth) && View(data, region, depth) == old(View(data, region, depth))
  {
    ghost var r;
    copy, r := DeepCopy(data, region, depth);
    copy.arr.items := [];
  }
}
