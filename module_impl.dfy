/**
 * A module of the search policy: the wires to the modules it imports
 * from and the reverse-dependency arrays kept on those exporters, the
 * merging of attached fragments' capabilities and requirements, boot
 * delegation, the content path, and the search order a class or resource
 * request follows (boot delegation, imports, own content, dynamic
 * imports) with the per-thread set that breaks delegation cycles.
 *
 * The resolver, the module contents and the wires' own class and
 * resource lookups are outside the model: they enter as oracles.
 */
module Modules {
  import opened Common

  type Obj = nat
  type Content = nat
  type Thread = nat

  /** The namespaces a capability, requirement or wire can be in. */
  datatype Namespace = PackageNamespace | ModuleNamespace | OtherNamespace(name: string)

  datatype Capability = Capability(ns: Namespace, name: string)

  datatype Requirement = Requirement(ns: Namespace, name: string)

  /** One entry of the boot delegation list: a package name, possibly wildcarded. */
  datatype BootPackage = BootPackage(name: string, wildcard: bool)

  /** A wire: the namespace of the capability it is wired to and the module exporting it. */
  datatype Wire = Wire(ns: Namespace, exporter: ModuleImpl)

  /** An attached fragment: the fragment module and the content of its root. */
  datatype Fragment = Fragment(fragmentModule: ModuleImpl, content: Content)

  /**
   * The module contents: getEntryAsContent (an embedded jar or directory,
   * when there is one) and hasEntry.
   */
  datatype Store = Store(entryAsContent: (Content, string) -> Option<Content>, hasEntry: (Content, string) -> bool)

  /** A bundle resource URL: the content-path port and the path. */
  datatype Url = Url(port: nat, path: string)

  /** What a search turns up: a class or a resource URL. */
  datatype Found = AClass(obj: Obj) | AResource(url: Url)

  /** What one step of the search answers: an object, null, or a not-found exception. */
  datatype Answer = Hit(value: Found) | Miss | Raised

  /**
   * The world a single request meets:
   * - resolveFails: resolving the module throws ResolveException;
   * - parent: the parent class loader's answer (boot delegation);
   * - viaWire: what each wire answers for the name;
   * - localClass: findClass on the module's own content;
   * - dynamicWire: the wire resolveDynamicImport creates, if any;
   * - fallback: what searchDynamicImports returns when there is no such
   *   wire (its class-context check and parent delegation).
   */
  datatype Env = Env(
    resolveFails: bool,
    parent: Answer,
    viaWire: Wire -> Answer,
    localClass: Answer,
    dynamicWire: Option<Wire>,
    fallback: Answer)

  /** The outcome of findClassOrResourceByDelegation: a value (possibly null) or ClassNotFound/ResourceNotFound. */
  datatype Delegated = Loaded(value: Option<Found>) | NotFound

  function OrEmpty<T>(o: Option<seq<T>>): seq<T>
  {
    if o.Some? then o.value else []
  }

  // ---------------------------------------------------------------------
  // Dependent arrays
  // ---------------------------------------------------------------------

  /** No module occurs twice in the array. */
  predicate NoDuplicates(xs: seq<ModuleImpl>)
  {
    forall i, j :: 0 <= i < j < |xs| ==> xs[i] != xs[j]
  }

  /** addDependent: the array itself when the module is in it, otherwise the module appended. */
  function WithDependent(xs: seq<ModuleImpl>, m: ModuleImpl): seq<ModuleImpl>
  {
    if m in xs then xs else xs + [m]
  }

  /** removeDependent: the array without the first occurrence of the module. */
  function WithoutDependent(xs: seq<ModuleImpl>, m: ModuleImpl): seq<ModuleImpl>
    decreases |xs|
  {
    if xs == [] then []
    else if xs[0] == m then xs[1..]
    else [xs[0]] + WithoutDependent(xs[1..], m)
  }

  lemma {:induction false} WithoutDependentAt(xs: seq<ModuleImpl>, m: ModuleImpl, i: nat)
    requires i < |xs| && xs[i] == m && m !in xs[..i]
    ensures WithoutDependent(xs, m) == xs[..i] + xs[i + 1..]
    decreases i
  {
    if i > 0 {
      assert xs[1..][..i - 1] == xs[1..i];
      assert xs[1..i] == xs[..i][1..];
      WithoutDependentAt(xs[1..], m, i - 1);
      assert xs[..i] == [xs[0]] + xs[1..][..i - 1];
    }
  }

  lemma {:induction false} WithoutDependentAbsent(xs: seq<ModuleImpl>, m: ModuleImpl)
    requires m !in xs
    ensures WithoutDependent(xs, m) == xs
    decreases |xs|
  {
    if xs != [] {
      WithoutDependentAbsent(xs[1..], m);
    }
  }

  /**
   * removeDependent on a duplicate-free array: the module is gone, every
   * other module stays, and the array stays duplicate-free.
   */
  lemma {:induction false} WithoutDependentMembers(xs: seq<ModuleImpl>, m: ModuleImpl)
    requires NoDuplicates(xs)
    ensures NoDuplicates(WithoutDependent(xs, m))
    ensures m !in WithoutDependent(xs, m)
    ensures forall x :: x != m ==> (x in WithoutDependent(xs, m) <==> x in xs)
    decreases |xs|
  {
    if xs != [] {
      var rest := xs[1..];
      assert NoDuplicates(rest) by {
        forall i, j | 0 <= i < j < |rest| ensures rest[i] != rest[j] {
          assert rest[i] == xs[i + 1] && rest[j] == xs[j + 1];
        }
      }
      assert xs[0] !in rest by {
        forall j | 0 <= j < |rest| ensures rest[j] != xs[0] {
          assert rest[j] == xs[j + 1];
        }
      }
      WithoutDependentMembers(rest, m);
      if xs[0] != m {
        var w := WithoutDependent(rest, m);
        assert WithoutDependent(xs, m) == [xs[0]] + w;
        assert xs[0] !in w;
        forall i, j | 0 <= i < j < |[xs[0]] + w| ensures ([xs[0]] + w)[i] != ([xs[0]] + w)[j] {
          if i > 0 {
            assert ([xs[0]] + w)[i] == w[i - 1] && ([xs[0]] + w)[j] == w[j - 1];
          } else {
            assert ([xs[0]] + w)[j] == w[j - 1];
          }
        }
      }
    }
  }

  /** addDependent never creates a duplicate and adds nothing but the module. */
  lemma WithDependentMembers(xs: seq<ModuleImpl>, m: ModuleImpl)
    requires NoDuplicates(xs)
    ensures NoDuplicates(WithDependent(xs, m))
    ensures m in WithDependent(xs, m)
    ensures forall x :: x in WithDependent(xs, m) <==> x in xs || x == m
  {
    if m !in xs {
      var ys := xs + [m];
      forall i, j | 0 <= i < j < |ys| ensures ys[i] != ys[j] {
        assert ys[i] == xs[i];
        if j < |xs| {
          assert ys[j] == xs[j];
        }
      }
    }
  }

  /** Adding a module that was not there and removing it again restores the array. */
  lemma WithThenWithout(xs: seq<ModuleImpl>, m: ModuleImpl)
    requires m !in xs
    ensures WithoutDependent(WithDependent(xs, m), m) == xs
  {
    var ys := xs + [m];
    assert ys[..|xs|] == xs;
    WithoutDependentAt(ys, m, |xs|);
    assert ys[|xs| + 1..] == [];
  }

  /** addDependent: scan for the module, append it when absent. */
  method AddDependent(modules: seq<ModuleImpl>, m: ModuleImpl) returns (tmp: seq<ModuleImpl>)
    ensures tmp == WithDependent(modules, m)
  {
    var i := 0;
    while i < |modules|
      invariant 0 <= i <= |modules|
      invariant m !in modules[..i]
    {
      if modules[i] == m {
        return modules;
      }
      assert modules[..i + 1] == modules[..i] + [modules[i]];
      i := i + 1;
    }
    assert modules[..i] == modules;
    tmp := modules + [m];
  }

  /** removeDependent: copy around the first occurrence, or keep the array. */
  method RemoveDependent(modules: seq<ModuleImpl>, m: ModuleImpl) returns (tmp: seq<ModuleImpl>)
    ensures tmp == WithoutDependent(modules, m)
  {
    tmp := modules;
    var i := 0;
    while i < |modules|
      invariant 0 <= i <= |modules|
      invariant m !in modules[..i]
    {
      if modules[i] == m {
        if |modules| - 1 == 0 {
          tmp := [];
        } else {
          tmp := modules[..i];
          if i < |modules| - 1 {
            tmp := tmp + modules[i + 1..];
          }
        }
        WithoutDependentAt(modules, m, i);
        return;
      }
      assert modules[..i + 1] == modules[..i] + [modules[i]];
      i := i + 1;
    }
    assert modules[..i] == modules;
    WithoutDependentAbsent(modules, m);
  }

  // ---------------------------------------------------------------------
  // Wiring: what setWires leaves on an exporter
  // ---------------------------------------------------------------------

  /** Is `e` the exporter of a wire of namespace `ns` in `ws`? */
  predicate HasWire(ws: seq<Wire>, e: ModuleImpl, ns: Namespace)
  {
    exists i :: 0 <= i < |ws| && ws[i].exporter == e && ws[i].ns == ns
  }

  /** The modules the wires point at. */
  function Exporters(ws: seq<Wire>): set<ModuleImpl>
  {
    set i | 0 <= i < |ws| :: ws[i].exporter
  }

  /**
   * The first loop of setWires, seen from exporter `e`: for every old
   * wire of namespace `ns` to `e`, in order, `me` is removed from the
   * dependent array.
   */
  function Unlinked(deps: seq<ModuleImpl>, me: ModuleImpl, e: ModuleImpl, ws: seq<Wire>, ns: Namespace): seq<ModuleImpl>
    decreases |ws|
  {
    if ws == [] then deps
    else
      var prev := Unlinked(deps, me, e, ws[..|ws| - 1], ns);
      var w := ws[|ws| - 1];
      if w.exporter == e && w.ns == ns then WithoutDependent(prev, me) else prev
  }

  /** The second loop of setWires, seen from `e`: `me` added once per new wire of `ns` to `e`. */
  function Linked(deps: seq<ModuleImpl>, me: ModuleImpl, e: ModuleImpl, ws: seq<Wire>, ns: Namespace): seq<ModuleImpl>
    decreases |ws|
  {
    if ws == [] then deps
    else
      var prev := Linked(deps, me, e, ws[..|ws| - 1], ns);
      var w := ws[|ws| - 1];
      if w.exporter == e && w.ns == ns then WithDependent(prev, me) else prev
  }

  lemma {:induction false} UnlinkedMembers(deps: seq<ModuleImpl>, me: ModuleImpl, e: ModuleImpl, ws: seq<Wire>, ns: Namespace)
    requires NoDuplicates(deps)
    ensures NoDuplicates(Unlinked(deps, me, e, ws, ns))
    ensures me in Unlinked(deps, me, e, ws, ns) <==> me in deps && !HasWire(ws, e, ns)
    ensures forall x :: x != me ==> (x in Unlinked(deps, me, e, ws, ns) <==> x in deps)
    decreases |ws|
  {
    if ws != [] {
      var front := ws[..|ws| - 1];
      UnlinkedMembers(deps, me, e, front, ns);
      var prev := Unlinked(deps, me, e, front, ns);
      var w := ws[|ws| - 1];
      if w.exporter == e && w.ns == ns {
        WithoutDependentMembers(prev, me);
        assert HasWire(ws, e, ns) by {
          assert ws[|ws| - 1] == w;
        }
      } else {
        HasWireFront(ws, e, ns);
      }
    }
  }

  lemma {:induction false} LinkedMembers(deps: seq<ModuleImpl>, me: ModuleImpl, e: ModuleImpl, ws: seq<Wire>, ns: Namespace)
    requires NoDuplicates(deps)
    ensures NoDuplicates(Linked(deps, me, e, ws, ns))
    ensures me in Linked(deps, me, e, ws, ns) <==> me in deps || HasWire(ws, e, ns)
    ensures forall x :: x != me ==> (x in Linked(deps, me, e, ws, ns) <==> x in deps)
    decreases |ws|
  {
    if ws != [] {
      var front := ws[..|ws| - 1];
      LinkedMembers(deps, me, e, front, ns);
      var prev := Linked(deps, me, e, front, ns);
      var w := ws[|ws| - 1];
      if w.exporter == e && w.ns == ns {
        WithDependentMembers(prev, me);
        assert HasWire(ws, e, ns) by {
          assert ws[|ws| - 1] == w;
        }
      } else {
        HasWireFront(ws, e, ns);
      }
    }
  }

  /** A wire list whose last wire does not match has the same matches as its front. */
  lemma HasWireFront(ws: seq<Wire>, e: ModuleImpl, ns: Namespace)
    requires ws != [] && !(ws[|ws| - 1].exporter == e && ws[|ws| - 1].ns == ns)
    ensures HasWire(ws, e, ns) <==> HasWire(ws[..|ws| - 1], e, ns)
  {
    var front := ws[..|ws| - 1];
    if HasWire(ws, e, ns) {
      var i :| 0 <= i < |ws| && ws[i].exporter == e && ws[i].ns == ns;
      assert front[i] == ws[i];
    }
    if HasWire(front, e, ns) {
      var i :| 0 <= i < |front| && front[i].exporter == e && front[i].ns == ns;
      assert ws[i] == front[i];
    }
  }

  /**
   * What setWires leaves in a duplicate-free dependent array of exporter
   * `e`: the module is listed exactly when a new wire of the namespace
   * points at `e`, or it was listed and no old wire of the namespace
   * pointed at `e`; every other module stays as it was, and the array
   * stays duplicate-free.
   */
  lemma Rewired(deps: seq<ModuleImpl>, me: ModuleImpl, e: ModuleImpl, olds: seq<Wire>, news: seq<Wire>, ns: Namespace)
    requires NoDuplicates(deps)
    ensures NoDuplicates(Linked(Unlinked(deps, me, e, olds, ns), me, e, news, ns))
    ensures me in Linked(Unlinked(deps, me, e, olds, ns), me, e, news, ns)
      <==> HasWire(news, e, ns) || (me in deps && !HasWire(olds, e, ns))
    ensures forall x :: x != me ==>
      (x in Linked(Unlinked(deps, me, e, olds, ns), me, e, news, ns) <==> x in deps)
  {
    UnlinkedMembers(deps, me, e, olds, ns);
    LinkedMembers(Unlinked(deps, me, e, olds, ns), me, e, news, ns);
  }

  /** Wires to other modules or in other namespaces leave an exporter's array alone. */
  lemma {:induction false} UnwiredUntouched(deps: seq<ModuleImpl>, me: ModuleImpl, e: ModuleImpl, ws: seq<Wire>, ns: Namespace)
    requires !HasWire(ws, e, ns)
    ensures Unlinked(deps, me, e, ws, ns) == deps
    ensures Linked(deps, me, e, ws, ns) == deps
    decreases |ws|
  {
    if ws != [] {
      assert ws[|ws| - 1].exporter != e || ws[|ws| - 1].ns != ns;
      HasWireFront(ws, e, ns);
      UnwiredUntouched(deps, me, e, ws[..|ws| - 1], ns);
    }
  }

  // ---------------------------------------------------------------------
  // Fragment merging
  // ---------------------------------------------------------------------

  /** The elements of `xs` that `keep` accepts, in order. */
  function Filter<T>(xs: seq<T>, keep: T -> bool): seq<T>
    decreases |xs|
  {
    if xs == [] then []
    else Filter(xs[..|xs| - 1], keep) + (if keep(xs[|xs| - 1]) then [xs[|xs| - 1]] else [])
  }

  /** The accepted elements of each part, part after part. */
  function Gathered<T>(parts: seq<seq<T>>, keep: T -> bool): seq<T>
    decreases |parts|
  {
    if parts == [] then [] else Gathered(parts[..|parts| - 1], keep) + Filter(parts[|parts| - 1], keep)
  }

  lemma {:induction false} FilterMember<T>(xs: seq<T>, keep: T -> bool, x: T)
    ensures x in Filter(xs, keep) <==> x in xs && keep(x)
    decreases |xs|
  {
    if xs != [] {
      var front := xs[..|xs| - 1];
      FilterMember(front, keep, x);
      assert xs == front + [xs[|xs| - 1]];
    }
  }

  lemma {:induction false} GatheredSound<T>(parts: seq<seq<T>>, keep: T -> bool, x: T)
    requires x in Gathered(parts, keep)
    ensures keep(x) && exists k :: 0 <= k < |parts| && x in parts[k]
    decreases |parts|
  {
    var n := |parts| - 1;
    if x in Gathered(parts[..n], keep) {
      GatheredSound(parts[..n], keep, x);
      var k :| 0 <= k < n && x in parts[..n][k];
      assert parts[k] == parts[..n][k];
    } else {
      FilterMember(parts[n], keep, x);
    }
  }

  lemma {:induction false} GatheredComplete<T>(parts: seq<seq<T>>, keep: T -> bool, x: T, k: nat)
    requires keep(x) && k < |parts| && x in parts[k]
    ensures x in Gathered(parts, keep)
    decreases |parts|
  {
    var n := |parts| - 1;
    if k < n {
      assert parts[..n][k] == parts[k];
      GatheredComplete(parts[..n], keep, x, k);
    } else {
      FilterMember(parts[n], keep, x);
    }
  }

  /** An element is gathered exactly when it is accepted and in some part. */
  lemma GatheredMember<T>(parts: seq<seq<T>>, keep: T -> bool, x: T)
    ensures x in Gathered(parts, keep) <==> keep(x) && exists k :: 0 <= k < |parts| && x in parts[k]
  {
    if x in Gathered(parts, keep) {
      GatheredSound(parts, keep, x);
    }
    if keep(x) && exists k :: 0 <= k < |parts| && x in parts[k] {
      var k :| 0 <= k < |parts| && x in parts[k];
      GatheredComplete(parts, keep, x, k);
    }
  }

  /**
   * The loop getCapabilities, getRequirements and getDynamicRequirements
   * share: start from the module's own list and append, fragment by
   * fragment, the entries whose namespace is accepted.
   */
  method Gather<T>(own: seq<T>, parts: seq<seq<T>>, keep: T -> bool) returns (list: seq<T>)
    ensures list == own + Gathered(parts, keep)
  {
    list := own;
    var k := 0;
    while k < |parts|
      invariant 0 <= k <= |parts|
      invariant list == own + Gathered(parts[..k], keep)
    {
      list := AppendKept(list, parts[k], keep);
      assert parts[..k + 1][..k] == parts[..k];
      ConcatAssoc(own, Gathered(parts[..k], keep), Filter(parts[k], keep));
      k := k + 1;
    }
    assert parts[..k] == parts;
  }

  /** Appends the accepted elements of one part, in order. */
  method AppendKept<T>(list: seq<T>, xs: seq<T>, keep: T -> bool) returns (r: seq<T>)
    ensures r == list + Filter(xs, keep)
  {
    r := list;
    var j := 0;
    while j < |xs|
      invariant 0 <= j <= |xs|
      invariant r == list + Filter(xs[..j], keep)
    {
      assert xs[..j + 1][..j] == xs[..j];
      if keep(xs[j]) {
        r := r + [xs[j]];
      }
      j := j + 1;
    }
    assert xs[..j] == xs;
  }

  predicate IsPackageCapability(c: Capability)
  {
    c.ns == PackageNamespace
  }

  predicate IsWiringRequirement(r: Requirement)
  {
    r.ns == PackageNamespace || r.ns == ModuleNamespace
  }

  predicate IsPackageRequirement(r: Requirement)
  {
    r.ns == PackageNamespace
  }

  // ---------------------------------------------------------------------
  // Boot delegation and the content path
  // ---------------------------------------------------------------------

  /** A boot delegation entry covers a package: by prefix when wildcarded, else by equality. */
  predicate BootMatch(b: BootPackage, pkgName: string)
  {
    (b.wildcard && StartsWith(pkgName, b.name)) || b.name == pkgName
  }

  /** The class path entry that denotes the module's own content. */
  const CLASS_PATH_DOT: string := "."

  /** A class path entry loses one leading slash. */
  function StripSlash(e: string): string
  {
    if |e| > 0 && e[0] == '/' then e[1..] else e
  }

  /** The first of `contents` holding the entry as embedded content. */
  function EmbeddedIn(store: Store, contents: seq<Content>, e: string): Option<Content>
    decreases |contents|
  {
    if contents == [] then None
    else match store.entryAsContent(contents[0], e)
      case Some(c) => Some(c)
      case None => EmbeddedIn(store, contents[1..], e)
  }

  /**
   * The content a class path entry stands for: the module's own content
   * for ".", otherwise the embedded content of that name, searched in the
   * fragments' contents too when `searchFragments`.
   */
  function Located(store: Store, content: Content, fragmentContents: seq<Content>, searchFragments: bool, e: string)
    : Option<Content>
  {
    var x := StripSlash(e);
    if x == CLASS_PATH_DOT then Some(content)
    else match store.entryAsContent(content, x)
      case Some(c) => Some(c)
      case None => if searchFragments then EmbeddedIn(store, fragmentContents, x) else None
  }

  /** The values `f` gives, in order, for the elements it maps to something. */
  function Collect<A, B>(xs: seq<A>, f: A -> Option<B>): seq<B>
    decreases |xs|
  {
    if xs == [] then []
    else
      var last := f(xs[|xs| - 1]);
      Collect(xs[..|xs| - 1], f) + (if last.Some? then [last.value] else [])
  }

  lemma {:induction false} CollectSound<A, B>(xs: seq<A>, f: A -> Option<B>, b: B)
    requires b in Collect(xs, f)
    ensures exists i :: 0 <= i < |xs| && f(xs[i]) == Some(b)
    decreases |xs|
  {
    var n := |xs| - 1;
    if b in Collect(xs[..n], f) {
      CollectSound(xs[..n], f, b);
      var i :| 0 <= i < n && f(xs[..n][i]) == Some(b);
      assert xs[i] == xs[..n][i];
    } else {
      assert f(xs[n]) == Some(b);
    }
  }

  lemma {:induction false} CollectComplete<A, B>(xs: seq<A>, f: A -> Option<B>, i: nat)
    requires i < |xs| && f(xs[i]).Some?
    ensures f(xs[i]).value in Collect(xs, f)
    decreases |xs|
  {
    var n := |xs| - 1;
    if i < n {
      assert xs[..n][i] == xs[i];
      CollectComplete(xs[..n], f, i);
    }
  }

  /** The content a class path entry stands for, as a function of the entry. */
  function EntryLocator(store: Store, content: Content, fragmentContents: seq<Content>, searchFragments: bool)
    : string -> Option<Content>
  {
    e => Located(store, content, fragmentContents, searchFragments, e)
  }

  /** The contents of the class path entries that are found, in order. */
  function LocalEntries(store: Store, content: Content, fragmentContents: seq<Content>, searchFragments: bool,
                        classPath: seq<string>): seq<Content>
  {
    Collect(classPath, EntryLocator(store, content, fragmentContents, searchFragments))
  }

  /** calculateContentPath for one module: its entries, or its own content when none is found. */
  function LocalPath(store: Store, content: Content, fragmentContents: seq<Content>, searchFragments: bool,
                     classPath: seq<string>): seq<Content>
  {
    var l := LocalEntries(store, content, fragmentContents, searchFragments, classPath);
    if l == [] then [content] else l
  }

  /**
   * The content path of a module is never empty; every element is the
   * module's own content or one a class path entry stands for.
   */
  lemma LocalPathSound(store: Store, content: Content, fragmentContents: seq<Content>, searchFragments: bool,
                       classPath: seq<string>, c: Content)
    requires c in LocalPath(store, content, fragmentContents, searchFragments, classPath)
    ensures LocalPath(store, content, fragmentContents, searchFragments, classPath) != []
    ensures c == content
      || exists i :: 0 <= i < |classPath| && Located(store, content, fragmentContents, searchFragments, classPath[i]) == Some(c)
  {
    var f := EntryLocator(store, content, fragmentContents, searchFragments);
    if c in Collect(classPath, f) {
      CollectSound(classPath, f, c);
    }
  }

  /** Every content a class path entry stands for is on the module's content path. */
  lemma LocalPathComplete(store: Store, content: Content, fragmentContents: seq<Content>, searchFragments: bool,
                          classPath: seq<string>, i: nat)
    requires i < |classPath| && Located(store, content, fragmentContents, searchFragments, classPath[i]).Some?
    ensures Located(store, content, fragmentContents, searchFragments, classPath[i]).value
      in LocalPath(store, content, fragmentContents, searchFragments, classPath)
  {
    var f := EntryLocator(store, content, fragmentContents, searchFragments);
    assert f(classPath[i]) == Located(store, content, fragmentContents, searchFragments, classPath[i]);
    CollectComplete(classPath, f, i);
  }

  /** "." and "/." both stand for the module's own content; "/x" stands for what "x" does. */
  lemma LocatedEntries(store: Store, content: Content, fragmentContents: seq<Content>, searchFragments: bool, x: string)
    requires !(|x| > 0 && x[0] == '/')
    ensures Located(store, content, fragmentContents, searchFragments, "/" + x)
         == Located(store, content, fragmentContents, searchFragments, x)
    ensures Located(store, content, fragmentContents, searchFragments, CLASS_PATH_DOT) == Some(content)
  {
    assert ("/" + x)[1..] == x;
  }

  /** The first of `path` that has the entry. */
  function FirstHolding(store: Store, path: seq<Content>, name: string): Option<nat>
    decreases |path|
  {
    if path == [] then None
    else if store.hasEntry(path[0], name) then Some(0)
    else match FirstHolding(store, path[1..], name)
      case Some(i) => Some(i + 1)
      case None => None
  }

  /** createURL: the path is given a leading slash when it has none. */
  function MakeUrl(port: nat, path: string): Url
  {
    if StartsWith(path, "/") then Url(port, path) else Url(port, "/" + path)
  }

  /**
   * getResourceLocal over a content path: "/" is a root URL on port 1;
   * otherwise the name loses a leading slash and the URL's port is one
   * more than the position of the first content path entry having it.
   */
  function LocalUrl(store: Store, path: seq<Content>, name: string): Option<Url>
  {
    if name == "/" then Some(MakeUrl(1, name))
    else
      var n := StripSlash(name);
      match FirstHolding(store, path, n)
      case Some(i) => Some(MakeUrl(i + 1, n))
      case None => None
  }

  lemma {:induction false} FirstHoldingMeaning(store: Store, path: seq<Content>, name: string)
    ensures FirstHolding(store, path, name).None? <==> forall j :: 0 <= j < |path| ==> !store.hasEntry(path[j], name)
    ensures FirstHolding(store, path, name).Some? ==>
      var i := FirstHolding(store, path, name).value;
      i < |path| && store.hasEntry(path[i], name) && forall j :: 0 <= j < i ==> !store.hasEntry(path[j], name)
    decreases |path|
  {
    if path != [] && !store.hasEntry(path[0], name) {
      FirstHoldingMeaning(store, path[1..], name);
      forall j | 1 <= j < |path| ensures path[j] == path[1..][j - 1] { }
    }
  }

  /**
   * The URL getResourceLocal returns for a name other than "/" is on
   * port i+1 for the first content path position i holding the name, and
   * there is none when no position does.
   */
  lemma LocalUrlPort(store: Store, path: seq<Content>, name: string)
    requires name != "/"
    ensures LocalUrl(store, path, name).None? <==>
      forall j :: 0 <= j < |path| ==> !store.hasEntry(path[j], StripSlash(name))
    ensures LocalUrl(store, path, name).Some? ==>
      exists i :: 0 <= i < |path| && store.hasEntry(path[i], StripSlash(name))
        && (forall j :: 0 <= j < i ==> !store.hasEntry(path[j], StripSlash(name)))
        && LocalUrl(store, path, name) == Some(MakeUrl(i + 1, StripSlash(name)))
  {
    FirstHoldingMeaning(store, path, StripSlash(name));
  }

  /** The loop of getResourceLocal: strip one leading slash, then scan the content path. */
  method FindEntry(store: Store, path: seq<Content>, name: string) returns (url: Option<Url>)
    requires name != "/"
    ensures url == LocalUrl(store, path, name)
  {
    var n := name;
    if StartsWith(name, "/") {
      n := name[1..];
    }
    assert n == StripSlash(name);
    var i := 0;
    while i < |path|
      invariant 0 <= i <= |path|
      invariant FirstHolding(store, path, n) == Shift(FirstHolding(store, path[i..], n), i)
    {
      assert path[i..][1..] == path[i + 1..];
      if store.hasEntry(path[i], n) {
        return Some(MakeUrl(i + 1, n));
      }
      i := i + 1;
    }
    return None;
  }

  // ---------------------------------------------------------------------
  // The search order
  // ---------------------------------------------------------------------

  /** searchImports: the first wire answering anything but null; an exception ends the search. */
  function FirstAnswer(ws: seq<Wire>, via: Wire -> Answer): Answer
    decreases |ws|
  {
    if ws == [] then Miss
    else if via(ws[0]).Miss? then FirstAnswer(ws[1..], via)
    else via(ws[0])
  }

  lemma {:induction false} FirstAnswerMeaning(ws: seq<Wire>, via: Wire -> Answer)
    ensures FirstAnswer(ws, via).Miss? <==> forall i :: 0 <= i < |ws| ==> via(ws[i]).Miss?
    ensures !FirstAnswer(ws, via).Miss? ==>
      exists i :: 0 <= i < |ws| && via(ws[i]) == FirstAnswer(ws, via) && forall j :: 0 <= j < i ==> via(ws[j]).Miss?
    decreases |ws|
  {
    if ws != [] && via(ws[0]).Miss? {
      FirstAnswerMeaning(ws[1..], via);
      forall i | 1 <= i < |ws| ensures ws[i] == ws[1..][i - 1] { }
      if !FirstAnswer(ws, via).Miss? {
        var i :| 0 <= i < |ws[1..]| && via(ws[1..][i]) == FirstAnswer(ws[1..], via)
          && forall j :: 0 <= j < i ==> via(ws[1..][j]).Miss?;
        assert ws[i + 1] == ws[1..][i];
        forall j | 0 <= j < i + 1 ensures via(ws[j]).Miss? {
          if j > 0 {
            assert ws[j] == ws[1..][j - 1];
          }
        }
      }
    }
  }

  /** searchDynamicImports: the dynamic wire's answer when one is created, otherwise the fallback. */
  function DynamicAnswer(env: Env): Answer
  {
    match env.dynamicWire
    case Some(w) => env.viaWire(w)
    case None => env.fallback
  }

  /** What the module's own content answers: findClass for a class, getResourceLocal for a resource. */
  function LocalAnswer(isClass: bool, env: Env, localUrl: Option<Url>): Answer
  {
    if isClass then env.localClass
    else if localUrl.Some? then Hit(AResource(localUrl.value))
    else Miss
  }

  /** The result of the search once the cycle check lets the request through. */
  function Search(isClass: bool, pkgName: string, env: Env, bootDelegate: bool, ws: seq<Wire>,
                  localUrl: Option<Url>): Delegated
  {
    if env.resolveFails then
      if isClass then NotFound
      else if localUrl.Some? then Loaded(Some(AResource(localUrl.value)))
      else NotFound
    else if bootDelegate && StartsWith(pkgName, "java.") then
      (match env.parent
       case Hit(v) => Loaded(Some(v))
       case Miss => Loaded(None)
       case Raised => NotFound)
    else if bootDelegate && env.parent.Hit? then Loaded(Some(env.parent.value))
    else
      var a := FirstAnswer(ws, env.viaWire);
      var b := if a.Miss? then LocalAnswer(isClass, env, localUrl) else a;
      var c := if b.Miss? then DynamicAnswer(env) else b;
      if c.Hit? then Loaded(Some(c.value)) else NotFound
  }

  /**
   * A java.* package that is boot delegated never reaches the imports,
   * the module's content or dynamic imports: the parent loader's answer
   * is final, null included.
   */
  lemma SearchJavaFinal(isClass: bool, pkgName: string, env: Env, ws: seq<Wire>, localUrl: Option<Url>,
                        env2: Env, ws2: seq<Wire>, localUrl2: Option<Url>)
    requires !env.resolveFails && StartsWith(pkgName, "java.")
    requires env2.resolveFails == env.resolveFails && env2.parent == env.parent
    ensures Search(isClass, pkgName, env, true, ws, localUrl)
         == Search(isClass, pkgName, env2, true, ws2, localUrl2)
    ensures Search(isClass, pkgName, env, true, ws, localUrl).Loaded?
         <==> !env.parent.Raised?
  {
  }

  /**
   * Past boot delegation, the first wire answering a value decides the
   * search, whatever the module's own content and dynamic imports hold.
   */
  lemma SearchWireWins(isClass: bool, pkgName: string, env: Env, bootDelegate: bool, ws: seq<Wire>,
                       localUrl: Option<Url>, i: nat, v: Found)
    requires !env.resolveFails && !bootDelegate
    requires i < |ws| && env.viaWire(ws[i]) == Hit(v) && forall j :: 0 <= j < i ==> env.viaWire(ws[j]).Miss?
    ensures Search(isClass, pkgName, env, bootDelegate, ws, localUrl) == Loaded(Some(v))
  {
    FirstAnswerLeading(ws, env.viaWire, i);
  }

  lemma {:induction false} FirstAnswerLeading(ws: seq<Wire>, via: Wire -> Answer, i: nat)
    requires i < |ws| && !via(ws[i]).Miss? && forall j :: 0 <= j < i ==> via(ws[j]).Miss?
    ensures FirstAnswer(ws, via) == via(ws[i])
    decreases i
  {
    if i > 0 {
      forall j | 0 <= j < i - 1 ensures via(ws[1..][j]).Miss? {
        assert ws[1..][j] == ws[j + 1];
      }
      FirstAnswerLeading(ws[1..], via, i - 1);
    }
  }

  /**
   * The search answers null only for a boot-delegated java.* package
   * whose parent loader answered null; every other null becomes
   * ClassNotFound or ResourceNotFound.
   */
  lemma SearchNullOnlyFromJava(isClass: bool, pkgName: string, env: Env, bootDelegate: bool, ws: seq<Wire>,
                               localUrl: Option<Url>)
    ensures Search(isClass, pkgName, env, bootDelegate, ws, localUrl) == Loaded(None) <==>
      !env.resolveFails && bootDelegate && StartsWith(pkgName, "java.") && env.parent.Miss?
  {
  }

  /**
   * When the module does not resolve, a class is not found, and a
   * resource is looked up in the module's own content only.
   */
  lemma SearchUnresolved(isClass: bool, pkgName: string, env: Env, bootDelegate: bool, ws: seq<Wire>,
                         localUrl: Option<Url>)
    requires env.resolveFails
    ensures isClass ==> Search(isClass, pkgName, env, bootDelegate, ws, localUrl) == NotFound
    ensures !isClass ==> (Search(isClass, pkgName, env, bootDelegate, ws, localUrl)
      == if localUrl.Some? then Loaded(Some(AResource(localUrl.value))) else NotFound)
  {
  }

  /**
   * Whatever the search returns comes from one of its four places, in
   * order: the parent loader, a wire whose predecessors all answered
   * null, the module's own content after every wire answered null, or
   * the dynamic import after that.
   */
  lemma SearchOrigin(isClass: bool, pkgName: string, env: Env, bootDelegate: bool, ws: seq<Wire>,
                     localUrl: Option<Url>, v: Found)
    requires !env.resolveFails
    requires Search(isClass, pkgName, env, bootDelegate, ws, localUrl) == Loaded(Some(v))
    ensures (bootDelegate && env.parent == Hit(v))
      || (exists i :: 0 <= i < |ws| && env.viaWire(ws[i]) == Hit(v) && forall j :: 0 <= j < i ==> env.viaWire(ws[j]).Miss?)
      || ((forall i :: 0 <= i < |ws| ==> env.viaWire(ws[i]).Miss?) && (LocalAnswer(isClass, env, localUrl) == Hit(v)
           || (LocalAnswer(isClass, env, localUrl).Miss? && DynamicAnswer(env) == Hit(v))))
  {
    FirstAnswerMeaning(ws, env.viaWire);
  }

  /** The cycle-check set of a thread; a thread without one has the empty set. */
  function RequestSet(m: map<Thread, set<string>>, t: Thread): set<string>
  {
    if t in m then m[t] else {}
  }

  // ---------------------------------------------------------------------
  // The module
  // ---------------------------------------------------------------------

  class ModuleImpl {
    const content: Content
    const classPath: seq<string>
    const capabilities: Option<seq<Capability>>
    const requirements: Option<seq<Requirement>>
    const dynamicRequirements: Option<seq<Requirement>>
    const bootPackages: seq<BootPackage>
    const fragments: seq<Fragment>
    const store: Store
    var wires: Option<seq<Wire>>
    var dependentHosts: seq<ModuleImpl>
    var dependentImporters: seq<ModuleImpl>
    var dependentRequirers: seq<ModuleImpl>
    var contentPath: Option<seq<Content>>
    var cycleCheck: map<Thread, set<string>>

    constructor (content: Content, classPath: seq<string>, capabilities: Option<seq<Capability>>,
                 requirements: Option<seq<Requirement>>, dynamicRequirements: Option<seq<Requirement>>,
                 bootPackages: seq<BootPackage>, fragments: seq<Fragment>, store: Store)
      ensures this.content == content && this.classPath == classPath
      ensures this.capabilities == capabilities && this.requirements == requirements
      ensures this.dynamicRequirements == dynamicRequirements
      ensures this.bootPackages == bootPackages && this.fragments == fragments && this.store == store
      ensures wires == None && contentPath == None && cycleCheck == map[]
      ensures dependentHosts == [] && dependentImporters == [] && dependentRequirers == []
    {
      this.content := content;
      this.classPath := classPath;
      this.capabilities := capabilities;
      this.requirements := requirements;
      this.dynamicRequirements := dynamicRequirements;
      this.bootPackages := bootPackages;
      this.fragments := fragments;
      this.store := store;
      wires := None;
      dependentHosts := [];
      dependentImporters := [];
      dependentRequirers := [];
      contentPath := None;
      cycleCheck := map[];
    }

    // --- dependents ---

    method AddDependentHost(m: ModuleImpl)
      modifies this`dependentHosts
      ensures dependentHosts == WithDependent(old(dependentHosts), m)
    {
      dependentHosts := AddDependent(dependentHosts, m);
    }

    method RemoveDependentHost(m: ModuleImpl)
      modifies this`dependentHosts
      ensures dependentHosts == WithoutDependent(old(dependentHosts), m)
    {
      dependentHosts := RemoveDependent(dependentHosts, m);
    }

    method AddDependentImporter(m: ModuleImpl)
      modifies this`dependentImporters
      ensures dependentImporters == WithDependent(old(dependentImporters), m)
    {
      dependentImporters := AddDependent(dependentImporters, m);
    }

    method RemoveDependentImporter(m: ModuleImpl)
      modifies this`dependentImporters
      ensures dependentImporters == WithoutDependent(old(dependentImporters), m)
    {
      dependentImporters := RemoveDependent(dependentImporters, m);
    }

    method AddDependentRequirer(m: ModuleImpl)
      modifies this`dependentRequirers
      ensures dependentRequirers == WithDependent(old(dependentRequirers), m)
    {
      dependentRequirers := AddDependent(dependentRequirers, m);
    }

    method RemoveDependentRequirer(m: ModuleImpl)
      modifies this`dependentRequirers
      ensures dependentRequirers == WithoutDependent(old(dependentRequirers), m)
    {
      dependentRequirers := RemoveDependent(dependentRequirers, m);
    }

    /** getDependents: hosts, then importers, then requirers, each block in its own order. */
    method GetDependents() returns (dependents: seq<ModuleImpl>)
      ensures |dependents| == |dependentHosts| + |dependentImporters| + |dependentRequirers|
      ensures dependents[..|dependentHosts|] == dependentHosts
      ensures dependents[|dependentHosts|..|dependentHosts| + |dependentImporters|] == dependentImporters
      ensures dependents[|dependentHosts| + |dependentImporters|..] == dependentRequirers
      ensures forall m :: m in dependents <==> m in dependentHosts || m in dependentImporters || m in dependentRequirers
    {
      dependents := dependentHosts + dependentImporters + dependentRequirers;
      assert dependents == dependentHosts + (dependentImporters + dependentRequirers);
    }

    // --- wiring ---

    /**
     * setWires: drop this module from the exporters of the old wires,
     * take the new wires, and list this module with the exporters of the
     * new ones: module wires in dependentRequirers, package wires in
     * dependentImporters, other namespaces nowhere.
     */
    method SetWires(ws: Option<seq<Wire>>)
      modifies this`wires
      modifies Exporters(OrEmpty(wires)) + Exporters(OrEmpty(ws))`dependentImporters
      modifies Exporters(OrEmpty(wires)) + Exporters(OrEmpty(ws))`dependentRequirers
      ensures wires == ws
      ensures forall e :: e in Exporters(OrEmpty(old(wires))) + Exporters(OrEmpty(ws)) ==>
        e.dependentImporters == Linked(Unlinked(old(e.dependentImporters), this, e, OrEmpty(old(wires)), PackageNamespace),
                                       this, e, OrEmpty(ws), PackageNamespace)
      ensures forall e :: e in Exporters(OrEmpty(old(wires))) + Exporters(OrEmpty(ws)) ==>
        e.dependentRequirers == Linked(Unlinked(old(e.dependentRequirers), this, e, OrEmpty(old(wires)), ModuleNamespace),
                                       this, e, OrEmpty(ws), ModuleNamespace)
    {
      var olds := OrEmpty(wires);
      ghost var s := Exporters(olds) + Exporters(OrEmpty(ws));
      Unwire(olds, s);
      wires := ws;
      Rewire(OrEmpty(ws), s);
    }

    /** The first loop of setWires: this module leaves the arrays of the old wires' exporters. */
    method Unwire(olds: seq<Wire>, ghost s: set<ModuleImpl>)
      requires Exporters(olds) <= s
      modifies s`dependentImporters, s`dependentRequirers
      ensures forall e :: e in s ==>
        e.dependentImporters == Unlinked(old(e.dependentImporters), this, e, olds, PackageNamespace)
      ensures forall e :: e in s ==>
        e.dependentRequirers == Unlinked(old(e.dependentRequirers), this, e, olds, ModuleNamespace)
    {
      var i := 0;
      while i < |olds|
        invariant 0 <= i <= |olds|
        invariant forall e :: e in s ==>
          e.dependentImporters == Unlinked(old(e.dependentImporters), this, e, olds[..i], PackageNamespace)
        invariant forall e :: e in s ==>
          e.dependentRequirers == Unlinked(old(e.dependentRequirers), this, e, olds[..i], ModuleNamespace)
      {
        var w := olds[i];
        assert w.exporter in Exporters(olds);
        assert olds[..i + 1][..i] == olds[..i] && olds[..i + 1][i] == w;
        if w.ns == ModuleNamespace {
          w.exporter.RemoveDependentRequirer(this);
        } else if w.ns == PackageNamespace {
          w.exporter.RemoveDependentImporter(this);
        }
        i := i + 1;
      }
      assert olds[..i] == olds;
    }

    /** The second loop of setWires: this module joins the arrays of the new wires' exporters. */
    method Rewire(news: seq<Wire>, ghost s: set<ModuleImpl>)
      requires Exporters(news) <= s
      modifies s`dependentImporters, s`dependentRequirers
      ensures forall e :: e in s ==>
        e.dependentImporters == Linked(old(e.dependentImporters), this, e, news, PackageNamespace)
      ensures forall e :: e in s ==>
        e.dependentRequirers == Linked(old(e.dependentRequirers), this, e, news, ModuleNamespace)
    {
      var i := 0;
      while i < |news|
        invariant 0 <= i <= |news|
        invariant forall e :: e in s ==>
          e.dependentImporters == Linked(old(e.dependentImporters), this, e, news[..i], PackageNamespace)
        invariant forall e :: e in s ==>
          e.dependentRequirers == Linked(old(e.dependentRequirers), this, e, news[..i], ModuleNamespace)
      {
        var w := news[i];
        assert w.exporter in Exporters(news);
        assert news[..i + 1][..i] == news[..i] && news[..i + 1][i] == w;
        if w.ns == ModuleNamespace {
          w.exporter.AddDependentRequirer(this);
        } else if w.ns == PackageNamespace {
          w.exporter.AddDependentImporter(this);
        }
        i := i + 1;
      }
      assert news[..i] == news;
    }

    // --- fragment merging ---

    function FragmentCapabilities(): seq<seq<Capability>>
    {
      seq(|fragments|, k requires 0 <= k < |fragments| => OrEmpty(fragments[k].fragmentModule.capabilities))
    }

    function FragmentRequirements(): seq<seq<Requirement>>
    {
      seq(|fragments|, k requires 0 <= k < |fragments| => OrEmpty(fragments[k].fragmentModule.requirements))
    }

    function FragmentDynamicRequirements(): seq<seq<Requirement>>
    {
      seq(|fragments|, k requires 0 <= k < |fragments| => OrEmpty(fragments[k].fragmentModule.dynamicRequirements))
    }

    /**
     * getCapabilities: the module's own capabilities, then the package
     * capabilities of each fragment in fragment order; nothing else.
     */
    method GetCapabilities() returns (caps: seq<Capability>)
      ensures caps == OrEmpty(capabilities) + Gathered(FragmentCapabilities(), IsPackageCapability)
      ensures forall c :: c in caps <==> (c in OrEmpty(capabilities)
        || (c.ns == PackageNamespace && exists k :: 0 <= k < |fragments| && c in OrEmpty(fragments[k].fragmentModule.capabilities)))
    {
      caps := Gather(OrEmpty(capabilities), FragmentCapabilities(), IsPackageCapability);
      assert forall k :: 0 <= k < |fragments| ==> FragmentCapabilities()[k] == OrEmpty(fragments[k].fragmentModule.capabilities);
      forall c ensures c in caps <==> (c in OrEmpty(capabilities)
        || (c.ns == PackageNamespace && exists k :: 0 <= k < |fragments| && c in OrEmpty(fragments[k].fragmentModule.capabilities)))
      {
        GatheredMember(FragmentCapabilities(), IsPackageCapability, c);
      }
    }

    /** getRequirements: own requirements, then each fragment's package and module requirements. */
    method GetRequirements() returns (reqs: seq<Requirement>)
      ensures reqs == OrEmpty(requirements) + Gathered(FragmentRequirements(), IsWiringRequirement)
      ensures forall r :: r in reqs <==> (r in OrEmpty(requirements)
        || ((r.ns == PackageNamespace || r.ns == ModuleNamespace) && exists k :: 0 <= k < |fragments| && r in OrEmpty(fragments[k].fragmentModule.requirements)))
    {
      reqs := Gather(OrEmpty(requirements), FragmentRequirements(), IsWiringRequirement);
      assert forall k :: 0 <= k < |fragments| ==> FragmentRequirements()[k] == OrEmpty(fragments[k].fragmentModule.requirements);
      forall r ensures r in reqs <==> (r in OrEmpty(requirements)
        || ((r.ns == PackageNamespace || r.ns == ModuleNamespace) && exists k :: 0 <= k < |fragments| && r in OrEmpty(fragments[k].fragmentModule.requirements)))
      {
        GatheredMember(FragmentRequirements(), IsWiringRequirement, r);
      }
    }

    /** getDynamicRequirements: own dynamic requirements, then each fragment's package ones. */
    method GetDynamicRequirements() returns (reqs: seq<Requirement>)
      ensures reqs == OrEmpty(dynamicRequirements) + Gathered(FragmentDynamicRequirements(), IsPackageRequirement)
      ensures forall r :: r in reqs <==> (r in OrEmpty(dynamicRequirements)
        || (r.ns == PackageNamespace && exists k :: 0 <= k < |fragments| && r in OrEmpty(fragments[k].fragmentModule.dynamicRequirements)))
    {
      reqs := Gather(OrEmpty(dynamicRequirements), FragmentDynamicRequirements(), IsPackageRequirement);
      assert forall k :: 0 <= k < |fragments| ==> FragmentDynamicRequirements()[k] == OrEmpty(fragments[k].fragmentModule.dynamicRequirements);
      forall r ensures r in reqs <==> (r in OrEmpty(dynamicRequirements)
        || (r.ns == PackageNamespace && exists k :: 0 <= k < |fragments| && r in OrEmpty(fragments[k].fragmentModule.dynamicRequirements)))
      {
        GatheredMember(FragmentDynamicRequirements(), IsPackageRequirement, r);
      }
    }

    // --- boot delegation ---

    /**
     * shouldBootDelegate: never for the default package; otherwise when
     * some entry covers the package.
     */
    method ShouldBootDelegate(pkgName: string) returns (result: bool)
      ensures result <==> pkgName != [] && exists i :: 0 <= i < |bootPackages| && BootMatch(bootPackages[i], pkgName)
    {
      result := false;
      if |pkgName| > 0 {
        var i := 0;
        while i < |bootPackages|
          invariant 0 <= i <= |bootPackages|
          invariant forall j :: 0 <= j < i ==> !BootMatch(bootPackages[j], pkgName)
        {
          if bootPackages[i].wildcard && StartsWith(pkgName, bootPackages[i].name) {
            return true;
          } else if bootPackages[i].name == pkgName {
            return true;
          }
          i := i + 1;
        }
      }
    }

    // --- content path ---

    /** The contents of the attached fragments, in fragment order. */
    function FragmentContents(): seq<Content>
    {
      seq(|fragments|, k requires 0 <= k < |fragments| => fragments[k].content)
    }

    /** initializeContentPath: the module's own path, then each fragment's, in fragment order. */
    function InitialPath(): seq<Content>
    {
      LocalPath(store, content, FragmentContents(), true, classPath) + FragmentPaths(|fragments|)
    }

    /** The paths of the first `n` fragments, each computed without searching fragments. */
    function FragmentPaths(n: nat): seq<Content>
      requires n <= |fragments|
    {
      if n == 0 then []
      else (FragmentPaths(n - 1)
            + LocalPath(store, fragments[n - 1].content, FragmentContents(), false, fragments[n - 1].fragmentModule.classPath))
    }

    /** The content path as getContentPath returns it: the cached one, or the one it computes. */
    function PathNow(): seq<Content>
      reads this`contentPath
    {
      if contentPath.Some? then contentPath.value else InitialPath()
    }

    /**
     * The content one class path entry of a module stands for: the
     * module's content for ".", else the entry embedded in the module's
     * content, else (when searching fragments) in the first fragment
     * content holding it.
     */
    method LocateEntry(moduleContent: Content, e: string, searchFragments: bool) returns (embedded: Option<Content>)
      ensures embedded == Located(store, moduleContent, FragmentContents(), searchFragments, e)
    {
      var x := StripSlash(e);
      if x == CLASS_PATH_DOT {
        return Some(moduleContent);
      }
      embedded := store.entryAsContent(moduleContent, x);
      if embedded.Some? || !searchFragments {
        return;
      }
      var fragmentContents := FragmentContents();
      var k := 0;
      while embedded.None? && k < |fragmentContents|
        invariant 0 <= k <= |fragmentContents|
        invariant embedded.None? ==> EmbeddedIn(store, fragmentContents, x) == EmbeddedIn(store, fragmentContents[k..], x)
        invariant embedded.Some? ==> embedded == EmbeddedIn(store, fragmentContents, x)
      {
        assert fragmentContents[k..][1..] == fragmentContents[k + 1..];
        embedded := store.entryAsContent(fragmentContents[k], x);
        k := k + 1;
      }
    }

    /** calculateContentPath: append one module's content path to `contentList`. */
    method CalculateContentPath(moduleClassPath: seq<string>, moduleContent: Content, contentList: seq<Content>,
                                searchFragments: bool) returns (list: seq<Content>)
      ensures list == contentList + LocalPath(store, moduleContent, FragmentContents(), searchFragments, moduleClassPath)
    {
      ghost var f := EntryLocator(store, moduleContent, FragmentContents(), searchFragments);
      var local: seq<Content> := [];
      var i := 0;
      while i < |moduleClassPath|
        invariant 0 <= i <= |moduleClassPath|
        invariant local == Collect(moduleClassPath[..i], f)
      {
        assert moduleClassPath[..i + 1][..i] == moduleClassPath[..i];
        var embedded := LocateEntry(moduleContent, moduleClassPath[i], searchFragments);
        assert embedded == f(moduleClassPath[..i + 1][i]);
        if embedded.Some? {
          local := local + [embedded.value];
        }
        i := i + 1;
      }
      assert moduleClassPath[..i] == moduleClassPath;
      if |local| == 0 {
        local := local + [moduleContent];
      }
      list := contentList + local;
    }

    /** initializeContentPath: the module's own path, then each fragment's. */
    method InitializeContentPath() returns (path: seq<Content>)
      ensures path == InitialPath()
    {
      path := CalculateContentPath(classPath, content, [], true);
      ghost var own := path;
      assert own == LocalPath(store, content, FragmentContents(), true, classPath);
      var i := 0;
      while i < |fragments|
        invariant 0 <= i <= |fragments|
        invariant path == own + FragmentPaths(i)
      {
        ghost var next := LocalPath(store, fragments[i].content, FragmentContents(), false, fragments[i].fragmentModule.classPath);
        path := CalculateContentPath(fragments[i].fragmentModule.classPath, fragments[i].content, path, false);
        assert FragmentPaths(i + 1) == FragmentPaths(i) + next;
        ConcatAssoc(own, FragmentPaths(i), next);
        i := i + 1;
      }
    }

    /** getContentPath: compute the content path on first use and keep it. */
    method GetContentPath() returns (path: seq<Content>)
      modifies this`contentPath
      ensures path == old(PathNow()) && contentPath == Some(path)
    {
      if contentPath.None? {
        var p := InitializeContentPath();
        contentPath := Some(p);
      }
      path := contentPath.value;
    }

    /** getResourceLocal: the URL of the first content path entry holding the name. */
    method GetResourceLocal(name: string) returns (url: Option<Url>)
      modifies this`contentPath
      ensures url == LocalUrl(store, old(PathNow()), name)
      ensures contentPath == Some(old(PathNow()))
    {
      var root: Option<Url> := None;
      if name == "/" {
        root := Some(MakeUrl(1, name));
      }
      var path := GetContentPath();
      if root.Some? {
        url := root;
      } else {
        url := FindEntry(store, path, name);
      }
    }

    // --- the search ---

    /** searchImports: ask the wires in order. */
    method SearchImports(via: Wire -> Answer) returns (result: Answer)
      ensures result == FirstAnswer(OrEmpty(wires), via)
    {
      var ws := OrEmpty(wires);
      var i := 0;
      while i < |ws|
        invariant 0 <= i <= |ws|
        invariant FirstAnswer(ws, via) == FirstAnswer(ws[i..], via)
      {
        assert ws[i..][1..] == ws[i + 1..];
        result := via(ws[i]);
        if !result.Miss? {
          return;
        }
        i := i + 1;
      }
      result := Miss;
    }

    /** The body of findClassOrResourceByDelegation inside the cycle check. */
    method Delegate(name: string, isClass: bool, pkgName: string, env: Env) returns (r: Delegated)
      modifies this`contentPath
      ensures r == Search(isClass, pkgName, env, BootDelegates(pkgName), OrEmpty(wires),
                          LocalUrl(store, old(PathNow()), name))
      ensures contentPath == old(contentPath) || contentPath == Some(old(PathNow()))
    {
      if env.resolveFails {
        if isClass {
          return NotFound;
        }
        var url := GetResourceLocal(name);
        if url.Some? {
          return Loaded(Some(AResource(url.value)));
        }
        return NotFound;
      }
      var boot := ShouldBootDelegate(pkgName);
      if boot {
        var res := env.parent;
        if res.Raised? {
          if StartsWith(pkgName, "java.") {
            return NotFound;
          }
        } else if StartsWith(pkgName, "java.") || res.Hit? {
          return Loaded(if res.Hit? then Some(res.value) else None);
        }
      }
      var result := SearchImports(env.viaWire);
      if result.Miss? {
        if isClass {
          result := env.localClass;
        } else {
          var url := GetResourceLocal(name);
          result := if url.Some? then Hit(AResource(url.value)) else Miss;
        }
        if result.Miss? {
          result := DynamicAnswer(env);
        }
      }
      if result.Hit? {
        r := Loaded(Some(result.value));
      } else {
        r := NotFound;
      }
    }

    /**
     * getResourceByDelegation: the URL the delegation search finds, and
     * null when it finds nothing, breaks a cycle or reports the resource
     * as not found.
     */
    method GetResourceByDelegation(t: Thread, name: string, pkgName: string, env: Env) returns (url: Option<Url>)
      modifies this`cycleCheck, this`contentPath
      ensures cycleCheck == old(cycleCheck)[t := RequestSet(old(cycleCheck), t)]
      ensures name in RequestSet(old(cycleCheck), t) ==> url == None
      ensures name !in RequestSet(old(cycleCheck), t) ==>
        var d := Search(false, pkgName, env, BootDelegates(pkgName), OrEmpty(wires), LocalUrl(store, old(PathNow()), name));
        (url.Some? ==> d == Loaded(Some(AResource(url.value))))
        && (url.None? ==> !(d.Loaded? && d.value.Some? && d.value.value.AResource?))
    {
      var r := FindClassOrResourceByDelegation(t, name, false, pkgName, env);
      if r.Loaded? && r.value.Some? && r.value.value.AResource? {
        url := Some(r.value.value.url);
      } else {
        url := None;
      }
    }

    predicate BootDelegates(pkgName: string)
    {
      pkgName != [] && exists i :: 0 <= i < |bootPackages| && BootMatch(bootPackages[i], pkgName)
    }

    /**
     * findClassOrResourceByDelegation: a name already in the calling
     * thread's request set answers null at once; otherwise the name is in
     * the set for the duration of the search and out of it again on every
     * way out.
     */
    method FindClassOrResourceByDelegation(t: Thread, name: string, isClass: bool, pkgName: string, env: Env)
      returns (r: Delegated)
      modifies this`cycleCheck, this`contentPath
      ensures cycleCheck == old(cycleCheck)[t := RequestSet(old(cycleCheck), t)]
      ensures name in RequestSet(old(cycleCheck), t) ==> r == Loaded(None) && contentPath == old(contentPath)
      ensures name !in RequestSet(old(cycleCheck), t) ==>
        r == Search(isClass, pkgName, env, BootDelegates(pkgName), OrEmpty(wires),
                    LocalUrl(store, old(PathNow()), name))
      ensures contentPath == old(contentPath) || contentPath == Some(old(PathNow()))
    {
      var requestSet := RequestSet(cycleCheck, t);
      cycleCheck := cycleCheck[t := requestSet];
      if name in requestSet {
        return Loaded(None);
      }
      cycleCheck := cycleCheck[t := requestSet + {name}];
      r := Delegate(name, isClass, pkgName, env);
      cycleCheck := cycleCheck[t := cycleCheck[t] - {name}];
      assert requestSet + {name} - {name} == requestSet;
    }
  }

  /** A content-path position shifted by `i`. */
  function Shift(p: Option<nat>, i: nat): Option<nat>
  {
    match p
    case Some(j) => Some(j + i)
    case None => None
  }
}
