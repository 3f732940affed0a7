/**
 * The settings tree addressed by message-path selectors: one optional value
 * for the global wildcard, and per package a wildcard plus, for each of the
 * three kinds, a kind wildcard and exact entries by message name.
 */
module AmentTrees {
  import opened Wrappers
  import opened MsgPaths

  datatype MsgTree<T> = MsgTree(wildcard: Option<T>, messages: map<string, T>)
  {
    function Entry(name: string): Option<T> {
      if name in messages then Some(messages[name]) else None
    }
  }

  datatype PackageTree<T> = PackageTree(wildcard: Option<T>, msg: MsgTree<T>, srv: MsgTree<T>, action: MsgTree<T>)
  {
    function Tree(kind: MsgKind): MsgTree<T> {
      match kind
      case Msg => msg
      case Srv => srv
      case Action => action
    }
  }

  function EmptyMsgTree<T>(): MsgTree<T> {
    MsgTree(None, map[])
  }

  function EmptyPackageTree<T>(): PackageTree<T> {
    PackageTree(None, EmptyMsgTree(), EmptyMsgTree(), EmptyMsgTree())
  }

  /** The values present in a sequence of optional values, in order. */
  function Present<T>(xs: seq<Option<T>>): (r: seq<T>)
    ensures |r| <= |xs|
  {
    if xs == [] then []
    else (if xs[0].Some? then [xs[0].value] else []) + Present(xs[1..])
  }

  /** A value is present exactly when some entry holds it. */
  lemma {:induction false} PresentMembers<T>(xs: seq<Option<T>>, x: T)
    ensures x in Present(xs) <==> Some(x) in xs
  {
    if xs != [] {
      PresentMembers(xs[1..], x);
      assert xs == [xs[0]] + xs[1..];
    }
  }

  lemma {:induction false} PresentNones<T>(xs: seq<Option<T>>)
    ensures Present(xs + [None, None, None]) == Present(xs)
  {
    var nones: seq<Option<T>> := [None, None, None];
    if xs == [] {
      assert nones[1..][1..][1..] == [];
      assert xs + nones == nones;
    } else {
      PresentNones(xs[1..]);
      assert (xs + nones)[1..] == xs[1..] + nones;
    }
  }

  /** Whether a selector applies to message `msg` of kind `kind` in package `pkg`. */
  predicate Matches(q: MsgPath, pkg: string, kind: MsgKind, msg: string) {
    match q
    case Wild => true
    case PkgWild(p) => p == pkg
    case PkgMsgWild(p) => p == pkg && kind == Msg
    case PkgMsgMsg(p, m) => p == pkg && kind == Msg && m == msg
    case PkgSrvWild(p) => p == pkg && kind == Srv
    case PkgSrvMsg(p, m) => p == pkg && kind == Srv && m == msg
    case PkgActionWild(p) => p == pkg && kind == Action
    case PkgActionMsg(p, m) => p == pkg && kind == Action && m == msg
  }

  /** The selectors that apply to one message, from the most general to the exact one. */
  function Query(pkg: string, kind: MsgKind, msg: string): (r: seq<MsgPath>)
    ensures |r| == 4 && r[0] == Wild && r[1] == PkgWild(pkg)
    ensures forall q :: q in r <==> Matches(q, pkg, kind, msg)
    ensures forall m :: Matches(r[2], pkg, kind, m)
    ensures forall m :: Matches(r[3], pkg, kind, m) <==> m == msg
  {
    match kind
    case Msg => [Wild, PkgWild(pkg), PkgMsgWild(pkg), PkgMsgMsg(pkg, msg)]
    case Srv => [Wild, PkgWild(pkg), PkgSrvWild(pkg), PkgSrvMsg(pkg, msg)]
    case Action => [Wild, PkgWild(pkg), PkgActionWild(pkg), PkgActionMsg(pkg, msg)]
  }

  class AmentTree<T> {
    var wildcard: Option<T>
    var packages: map<string, PackageTree<T>>

    /** The default tree: nothing is set. */
    constructor()
      ensures wildcard == None && packages == map[]
      ensures forall q :: Slot(q) == None
    {
      wildcard := None;
      packages := map[];
    }

    /** The value stored for selector `q`, if any. */
    function Slot(q: MsgPath): Option<T>
      reads this
    {
      match q
      case Wild => wildcard
      case _ =>
        if q.pkg !in packages then None
        else
          var pt := packages[q.pkg];
          match q
          case PkgWild(_) => pt.wildcard
          case PkgMsgWild(_) => pt.msg.wildcard
          case PkgMsgMsg(_, m) => pt.msg.Entry(m)
          case PkgSrvWild(_) => pt.srv.wildcard
          case PkgSrvMsg(_, m) => pt.srv.Entry(m)
          case PkgActionWild(_) => pt.action.wildcard
          case PkgActionMsg(_, m) => pt.action.Entry(m)
    }

    /** The values stored for the selectors `qs`, in order, skipping absent ones. */
    function Values(qs: seq<MsgPath>): (r: seq<T>)
      reads this
      ensures |r| <= |qs|
    {
      Present(seq(|qs|, i requires 0 <= i < |qs| reads this => Slot(qs[i])))
    }

    /** The package tree of `pkg`, or an empty one when it has none yet. */
    function PackageOf(pkg: string): PackageTree<T>
      reads this
    {
      if pkg in packages then packages[pkg] else EmptyPackageTree()
    }

    /**
     * Stores `context` for `path`: exactly that slot changes, any earlier
     * value there is overwritten, and a package selector gives its package a
     * tree if it had none.
     */
    method Set(path: MsgPath, context: T)
      modifies this
      ensures Slot(path) == Some(context)
      ensures forall q :: q != path ==> Slot(q) == old(Slot(q))
      ensures path.Wild? ==> packages == old(packages)
      ensures !path.Wild? ==> packages.Keys == old(packages.Keys) + {path.pkg}
    {
      match path {
        case Wild =>
          wildcard := Some(context);
        case PkgWild(pkg) =>
          var pt := PackageOf(pkg);
          packages := packages[pkg := pt.(wildcard := Some(context))];
        case PkgMsgWild(pkg) =>
          var pt := PackageOf(pkg);
          packages := packages[pkg := pt.(msg := pt.msg.(wildcard := Some(context)))];
        case PkgMsgMsg(pkg, msg) =>
          var pt := PackageOf(pkg);
          packages := packages[pkg := pt.(msg := pt.msg.(messages := pt.msg.messages[msg := context]))];
        case PkgSrvWild(pkg) =>
          var pt := PackageOf(pkg);
          packages := packages[pkg := pt.(srv := pt.srv.(wildcard := Some(context)))];
        case PkgSrvMsg(pkg, srv) =>
          var pt := PackageOf(pkg);
          packages := packages[pkg := pt.(srv := pt.srv.(messages := pt.srv.messages[srv := context]))];
        case PkgActionWild(pkg) =>
          var pt := PackageOf(pkg);
          packages := packages[pkg := pt.(action := pt.action.(wildcard := Some(context)))];
        case PkgActionMsg(pkg, action) =>
          var pt := PackageOf(pkg);
          packages := packages[pkg := pt.(action := pt.action.(messages := pt.action.messages[action := context]))];
      }
    }

    /**
     * The settings that apply to one message: the global wildcard, the
     * package wildcard, the kind wildcard and the exact entry, in that order,
     * each only when set.
     */
    function Get(pkg: string, kind: MsgKind, msg: string): (r: seq<T>)
      reads this
      ensures r == Values(Query(pkg, kind, msg))
      ensures |r| <= 4
      ensures pkg !in packages ==> r == Present([wildcard])
    {
      var opt1 := [wildcard];
      var opts :=
        if pkg in packages then
          var pkgTree := packages[pkg];
          var msgTree := pkgTree.Tree(kind);
          [pkgTree.wildcard, msgTree.wildcard, msgTree.Entry(msg)]
        else [];
      var slots := seq(4, i requires 0 <= i < 4 reads this => Slot(Query(pkg, kind, msg)[i]));
      assert pkg in packages ==> slots == opt1 + opts;
      assert pkg !in packages ==> slots == opt1 + [None, None, None] && Present(slots) == Present(opt1 + opts) by {
        if pkg !in packages {
          PresentNones(opt1);
        }
      }
      Present(opt1 + opts)
    }
  }

  /** What `Get` returns depends only on the slots of the selectors that match. */
  lemma GetDependsOnlyOnMatches<T>(t1: AmentTree<T>, t2: AmentTree<T>, pkg: string, kind: MsgKind, msg: string)
    requires forall q :: Matches(q, pkg, kind, msg) ==> t1.Slot(q) == t2.Slot(q)
    ensures t1.Get(pkg, kind, msg) == t2.Get(pkg, kind, msg)
  {
    var qs := Query(pkg, kind, msg);
    assert forall i :: 0 <= i < 4 ==> t1.Slot(qs[i]) == t2.Slot(qs[i]);
    assert seq(|qs|, i requires 0 <= i < |qs| reads t1 => t1.Slot(qs[i]))
        == seq(|qs|, i requires 0 <= i < |qs| reads t2 => t2.Slot(qs[i]));
  }

  /**
   * `Get` returns exactly the values stored for the selectors that match the
   * message: a stored value is returned when its selector matches, and every
   * returned value was stored for a matching selector.
   */
  lemma GetReturnsMatchingSlots<T>(t: AmentTree<T>, pkg: string, kind: MsgKind, msg: string, x: T)
    ensures x in t.Get(pkg, kind, msg) <==> exists q :: Matches(q, pkg, kind, msg) && t.Slot(q) == Some(x)
  {
    var qs := Query(pkg, kind, msg);
    var slots := seq(|qs|, i requires 0 <= i < |qs| reads t => t.Slot(qs[i]));
    PresentMembers(slots, x);
    if x in t.Get(pkg, kind, msg) {
      var i :| 0 <= i < |slots| && slots[i] == Some(x);
      assert Matches(qs[i], pkg, kind, msg);
    }
    if q :| Matches(q, pkg, kind, msg) && t.Slot(q) == Some(x) {
      var i :| 0 <= i < |qs| && qs[i] == q;
      assert slots[i] == Some(x);
    }
  }
}
