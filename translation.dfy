/**
 * Translation dictionaries and the dotted key-path lookup that the landing
 * page's `getNestedValue` performs over them.
 */
module Translation {
  import opened Wrappers

  /** One locale's dictionary as parsed from its JSON file: a string leaf or a
      nested object keyed by strings. */
  datatype Tree = Leaf(text: string) | Node(children: map<string, Tree>)

  /** The value the lookup carries from one key segment to the next.
      `Absent` is JavaScript's `undefined`; a subtree is a distinct outcome. */
  datatype Lookup = Absent | Text(s: string) | Subtree(children: map<string, Tree>)

  /** A dictionary value seen as a lookup outcome. */
  function Of(t: Tree): Lookup {
    match t
    case Leaf(s) => Text(s)
    case Node(m) => Subtree(m)
  }

  /** JavaScript truthiness of a lookup outcome: `undefined` and `""` are
      falsy, every other string and every object are truthy. */
  predicate Truthy(v: Lookup) {
    match v
    case Absent => false
    case Text(s) => s != ""
    case Subtree(_) => true
  }

  /** One step of the `reduce`: `current && current[key]`. A falsy value is
      passed on as it is. Indexing into a non-empty string is abstracted to
      `Absent`. */
  function Step(current: Lookup, key: string): (r: Lookup)
    ensures Truthy(r) ==> current.Subtree? && key in current.children && r == Of(current.children[key])
  {
    match current
    case Absent => Absent
    case Text(s) => if s == "" then current else Absent
    case Subtree(m) => if key in m then Of(m[key]) else Absent
  }

  /** The `reduce` over the key segments, left to right. */
  function Walk(current: Lookup, keys: seq<string>): (r: Lookup)
    ensures Truthy(r) && keys != [] ==> current.Subtree?
    decreases |keys|
  {
    if keys == [] then current else Walk(Step(current, keys[0]), keys[1..])
  }

  /** Joins key segments with `.`; the inverse of `Split`. */
  function Join(parts: seq<string>): string
    requires |parts| > 0
  {
    if |parts| == 1 then parts[0] else parts[0] + "." + Join(parts[1..])
  }

  /** `String.prototype.split('.')`: the maximal `.`-free pieces of `path`,
      in order; an empty path or adjacent dots give empty pieces. */
  function Split(path: string): (parts: seq<string>)
    ensures |parts| > 0
    ensures forall i :: 0 <= i < |parts| ==> '.' !in parts[i]
    ensures Join(parts) == path
  {
    if path == "" then [""]
    else
      var rest := Split(path[1..]);
      if path[0] == '.' then
        [""] + rest
      else
        assert path == [path[0]] + path[1..];
        [[path[0]] + rest[0]] + rest[1..]
  }

  /** `getNestedValue(obj, path)`: truthy exactly when every segment of
      the path resolves and the value reached is truthy, and then that value. */
  function GetNestedValue(obj: Tree, path: string): (r: Lookup)
    ensures Truthy(r) <==>
      (Descend(obj, Split(path)).Some? && Truthy(Of(Descend(obj, Split(path)).value)))
    ensures Truthy(r) ==> r == Of(Descend(obj, Split(path)).value)
  {
    WalkFollowsDescend(obj, Split(path));
    Walk(Of(obj), Split(path))
  }

  /** Reference resolution: follow `keys` through nested objects only,
      failing at the first missing segment or at a leaf with keys left. */
  function Descend(t: Tree, keys: seq<string>): Option<Tree>
    decreases |keys|
  {
    if keys == [] then Some(t)
    else match t
      case Leaf(_) => None
      case Node(m) => if keys[0] in m then Descend(m[keys[0]], keys[1..]) else None
  }

  /** A falsy value stays as it is through every later segment. */
  lemma {:induction false} FalsyIsSticky(v: Lookup, keys: seq<string>)
    requires !Truthy(v)
    ensures Walk(v, keys) == v
    decreases |keys|
  {
    if keys != [] {
      FalsyIsSticky(Step(v, keys[0]), keys[1..]);
    }
  }

  /** The lookup agrees with strict resolution: it yields the resolved value
      when every segment exists, and a falsy value (never a failure) as soon as
      one segment is missing. */
  lemma {:induction false} WalkFollowsDescend(t: Tree, keys: seq<string>)
    ensures Descend(t, keys).Some? ==> Walk(Of(t), keys) == Of(Descend(t, keys).value)
    ensures Descend(t, keys).None? ==> !Truthy(Walk(Of(t), keys))
    decreases |keys|
  {
    if keys != [] {
      match t
      case Leaf(s) =>
        FalsyIsSticky(Step(Of(t), keys[0]), keys[1..]);
      case Node(m) =>
        if keys[0] in m {
          WalkFollowsDescend(m[keys[0]], keys[1..]);
        } else {
          FalsyIsSticky(Absent, keys[1..]);
        }
    }
  }

  /** A missing segment anywhere in the path gives no value. */
  lemma MissingSegmentGivesNoValue(obj: Tree, path: string)
    requires Descend(obj, Split(path)).None?
    ensures !Truthy(GetNestedValue(obj, path))
  {
    WalkFollowsDescend(obj, Split(path));
  }

  /** A key without dots is a single segment. */
  lemma {:induction false} SplitWithoutDot(s: string)
    requires '.' !in s
    ensures Split(s) == [s]
  {
    if s != "" {
      SplitWithoutDot(s[1..]);
      assert s == [s[0]] + s[1..];
    }
  }

  /** Splitting stops at the first dot. */
  lemma {:induction false} SplitAtFirstDot(a: string, b: string)
    requires '.' !in a
    ensures Split(a + "." + b) == [a] + Split(b)
  {
    if a == "" {
      assert a + "." + b == ['.'] + b;
      assert (['.'] + b)[1..] == b;
    } else {
      SplitAtFirstDot(a[1..], b);
      assert (a + "." + b)[1..] == a[1..] + "." + b;
      assert a == [a[0]] + a[1..];
    }
  }

  /** Split and Join are inverse on dot-free segments. */
  lemma {:induction false} SplitJoin(parts: seq<string>)
    requires |parts| > 0
    requires forall i :: 0 <= i < |parts| ==> '.' !in parts[i]
    ensures Split(Join(parts)) == parts
    decreases |parts|
  {
    if |parts| == 1 {
      SplitWithoutDot(parts[0]);
    } else {
      SplitJoin(parts[1..]);
      SplitAtFirstDot(parts[0], Join(parts[1..]));
      assert [parts[0]] + parts[1..] == parts;
    }
  }

  /** A single-segment key gives the top-level entry, or no value. */
  lemma SingleSegmentKey(m: map<string, Tree>, key: string)
    requires '.' !in key
    ensures GetNestedValue(Node(m), key) == if key in m then Of(m[key]) else Absent
  {
    SplitWithoutDot(key);
    assert Walk(Subtree(m), [key]) == Walk(Step(Subtree(m), key), []);
  }

  /** A dotted key looks up its first segment, then the rest of the path in
      what that segment names. */
  lemma LookupDescendsOneSegment(m: map<string, Tree>, head: string, rest: string)
    requires '.' !in head
    ensures GetNestedValue(Node(m), head + "." + rest) ==
      if head in m then GetNestedValue(m[head], rest) else Absent
  {
    SplitAtFirstDot(head, rest);
    var keys := Split(head + "." + rest);
    assert keys[0] == head && keys[1..] == Split(rest);
    if head !in m {
      FalsyIsSticky(Absent, Split(rest));
    }
  }
}
