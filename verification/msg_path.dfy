/**
 * Message-path selectors `pkg/kind/msg`, where each token may be `*`, and
 * the tree of per-selector settings they address.
 */
module MsgPaths {
  import opened Wrappers
  import opened Text

  datatype MsgKind = Msg | Srv | Action

  datatype MsgPath =
    | Wild
    | PkgWild(pkg: string)
    | PkgMsgWild(pkg: string)
    | PkgMsgMsg(pkg: string, msg: string)
    | PkgSrvWild(pkg: string)
    | PkgSrvMsg(pkg: string, srv: string)
    | PkgActionWild(pkg: string)
    | PkgActionMsg(pkg: string, action: string)

  datatype PathError = InvalidMsgPath(text: string)

  predicate IsAsciiAlphanumeric(c: char) {
    ('a' <= c <= 'z') || ('A' <= c <= 'Z') || ('0' <= c <= '9')
  }

  /** A package name: ASCII letters and digits only (no underscore). */
  predicate IsPackageName(t: string) {
    forall i :: 0 <= i < |t| ==> IsAsciiAlphanumeric(t[i])
  }

  /** A message name: ASCII letters, digits and underscores. */
  predicate IsMessageName(t: string) {
    forall i :: 0 <= i < |t| ==> IsAsciiAlphanumeric(t[i]) || t[i] == '_'
  }

  /** A parsed token: `*` or a name. */
  datatype Token = Wildcard | Name(name: string)

  /** A parsed kind token: `*` or one of the three kinds. */
  datatype KindToken = AnyKind | KindIs(kind: MsgKind)

  function PackageToken(t: string): Option<Token> {
    if t == "*" then Some(Wildcard)
    else if IsPackageName(t) then Some(Name(t))
    else None
  }

  function KindTokenOf(t: string): Option<KindToken> {
    if t == "*" then Some(AnyKind)
    else if t == "msg" then Some(KindIs(Msg))
    else if t == "srv" then Some(KindIs(Srv))
    else if t == "action" then Some(KindIs(Action))
    else None
  }

  function MessageToken(t: string): Option<Token> {
    if t == "*" then Some(Wildcard)
    else if IsMessageName(t) then Some(Name(t))
    else None
  }

  /** The combinations of tokens that denote a selector. */
  function Combine(pkg: Token, kind: KindToken, msg: Token): Option<MsgPath> {
    match (pkg, kind, msg)
    case (Wildcard, AnyKind, Wildcard) => Some(Wild)
    case (Name(p), AnyKind, Wildcard) => Some(PkgWild(p))
    case (Name(p), KindIs(Msg), Wildcard) => Some(PkgMsgWild(p))
    case (Name(p), KindIs(Msg), Name(m)) => Some(PkgMsgMsg(p, m))
    case (Name(p), KindIs(Srv), Wildcard) => Some(PkgSrvWild(p))
    case (Name(p), KindIs(Srv), Name(m)) => Some(PkgSrvMsg(p, m))
    case (Name(p), KindIs(Action), Wildcard) => Some(PkgActionWild(p))
    case (Name(p), KindIs(Action), Name(m)) => Some(PkgActionMsg(p, m))
    case _ => None
  }

  /**
   * The validity matrix: three tokens, each of its own shape, where a `*`
   * package needs `*` kind and message, and a `*` kind needs a `*` message.
   */
  predicate ValidTokens(ts: seq<string>) {
    && |ts| == 3
    && (ts[0] == "*" || IsPackageName(ts[0]))
    && ts[1] in ["*", "msg", "srv", "action"]
    && (ts[2] == "*" || IsMessageName(ts[2]))
    && (ts[0] == "*" ==> ts[1] == "*" && ts[2] == "*")
    && (ts[1] == "*" ==> ts[2] == "*")
  }

  /** The three tokens a selector is written with. */
  function Tokens(p: MsgPath): (ts: seq<string>)
    ensures |ts| == 3
  {
    match p
    case Wild => ["*", "*", "*"]
    case PkgWild(pkg) => [pkg, "*", "*"]
    case PkgMsgWild(pkg) => [pkg, "msg", "*"]
    case PkgMsgMsg(pkg, m) => [pkg, "msg", m]
    case PkgSrvWild(pkg) => [pkg, "srv", "*"]
    case PkgSrvMsg(pkg, m) => [pkg, "srv", m]
    case PkgActionWild(pkg) => [pkg, "action", "*"]
    case PkgActionMsg(pkg, m) => [pkg, "action", m]
  }

  function ToStr(p: MsgPath): string {
    Join(Tokens(p), '/')
  }

  /** A selector whose names can be written: the forms `FromStr` produces. */
  predicate ValidPath(p: MsgPath) {
    match p
    case Wild => true
    case PkgWild(pkg) => IsPackageName(pkg)
    case PkgMsgWild(pkg) => IsPackageName(pkg)
    case PkgSrvWild(pkg) => IsPackageName(pkg)
    case PkgActionWild(pkg) => IsPackageName(pkg)
    case PkgMsgMsg(pkg, m) => IsPackageName(pkg) && IsMessageName(m)
    case PkgSrvMsg(pkg, m) => IsPackageName(pkg) && IsMessageName(m)
    case PkgActionMsg(pkg, m) => IsPackageName(pkg) && IsMessageName(m)
  }

  /** Interprets the `/`-separated tokens of a selector. */
  function FromTokens(tokens: seq<string>): (r: Option<MsgPath>)
    ensures r.Some? <==> ValidTokens(tokens)
    ensures r.Some? ==> Tokens(r.value) == tokens && ValidPath(r.value)
  {
    if |tokens| != 3 then None
    else
      match (PackageToken(tokens[0]), KindTokenOf(tokens[1]), MessageToken(tokens[2]))
      case (Some(pkg), Some(kind), Some(msg)) => Combine(pkg, kind, msg)
      case _ => None
  }

  /**
   * Parses a selector. It is accepted exactly when its `/`-separated tokens
   * satisfy the validity matrix, and the selector is then written with those
   * very tokens.
   */
  function FromStr(text: string): (r: Result<MsgPath, PathError>)
    ensures r.Ok? <==> ValidTokens(Split(text, '/'))
    ensures r.Ok? ==> Tokens(r.value) == Split(text, '/') && ValidPath(r.value)
    ensures r.Err? ==> r.error == InvalidMsgPath(text)
  {
    match FromTokens(Split(text, '/'))
    case Some(path) => Ok(path)
    case None => Err(InvalidMsgPath(text))
  }

  /** An accepted selector prints back as the text it was parsed from. */
  lemma FromStrToStr(text: string)
    requires FromStr(text).Ok?
    ensures ToStr(FromStr(text).value) == text
  {
    JoinSplit(text, '/');
  }

  /** Every writable selector is parsed back from its text. */
  lemma ToStrFromStr(p: MsgPath)
    requires ValidPath(p)
    ensures FromStr(ToStr(p)) == Ok(p)
  {
    var ts := Tokens(p);
    forall i | 0 <= i < 3 ensures '/' !in ts[i] {
      NameHasNoSlash(ts[i]);
    }
    SplitJoin(ts, '/');
    var r := FromStr(ToStr(p));
    assert r.Ok?;
    assert Tokens(r.value) == ts;
    TokensInjective(r.value, p);
  }

  lemma TokensInjective(p: MsgPath, q: MsgPath)
    requires ValidPath(p) && ValidPath(q)
    requires Tokens(p) == Tokens(q)
    ensures p == q
  {
    assert !IsPackageName("*") && !IsMessageName("*") by { assert "*"[0] == '*'; }
    assert Tokens(p)[0] == Tokens(q)[0] && Tokens(p)[1] == Tokens(q)[1] && Tokens(p)[2] == Tokens(q)[2];
  }

  /** The tokens of a three-token text, when none of them holds `/`. */
  lemma ThreeTokens(a: string, b: string, c: string)
    requires '/' !in a && '/' !in b && '/' !in c
    ensures Split(a + "/" + b + "/" + c, '/') == [a, b, c]
  {
    assert a + "/" + b + "/" + c == a + ['/'] + (b + ['/'] + c);
    SplitPrefix(a, '/', b + ['/'] + c);
    SplitPrefix(b, '/', c);
    SplitNoSeparator(c, '/');
  }

  lemma NameHasNoSlash(t: string)
    requires t == "*" || t in ["msg", "srv", "action"] || IsMessageName(t)
    ensures '/' !in t
  {
    forall k | 0 <= k < |t| ensures t[k] != '/' {
    }
  }

  lemma FullWildcardAccepted()
    ensures FromStr("*/*/*") == Ok(Wild)
  {
    ThreeTokens("*", "*", "*");
    assert "*/*/*" == "*" + "/" + "*" + "/" + "*";
  }

  /**
   * A package token holding `_` is rejected whatever follows it, so ROS-style
   * package names such as `std_msgs` cannot be selected by name.
   */
  lemma UnderscorePackageRejected(pkg: string, kind: string, msg: string)
    requires '_' in pkg && '/' !in pkg && '/' !in kind && '/' !in msg
    ensures FromStr(pkg + "/" + kind + "/" + msg).Err?
  {
    ThreeTokens(pkg, kind, msg);
    var k :| 0 <= k < |pkg| && pkg[k] == '_';
    assert !IsAsciiAlphanumeric(pkg[k]);
  }

  /** A message token may hold `_`: `geometry/msg/Point_2` names one message. */
  lemma UnderscoreMessageAccepted(pkg: string, msg: string)
    requires pkg == "geometry" && msg == "Point_2"
    ensures FromStr(pkg + "/msg/" + msg) == Ok(PkgMsgMsg(pkg, msg))
  {
    assert IsPackageName(pkg) by {
      forall i | 0 <= i < |pkg| ensures IsAsciiAlphanumeric(pkg[i]) { }
    }
    assert IsMessageName(msg) by {
      forall i | 0 <= i < |msg| ensures IsAsciiAlphanumeric(msg[i]) || msg[i] == '_' { }
    }
    var p := PkgMsgMsg(pkg, msg);
    ToStrFromStr(p);
    var ts := Tokens(p);
    assert ts[1..] == ["msg", msg] && ts[1..][1..] == [msg];
    assert Join(ts[1..][1..], '/') == msg;
    assert Join(ts[1..], '/') == "msg" + ['/'] + msg;
    assert Join(ts, '/') == pkg + ['/'] + ("msg" + ['/'] + msg);
    assert ToStr(p) == pkg + "/msg/" + msg;
  }

  /** Empty package and message tokens pass the character checks. */
  lemma EmptyNamesAccepted()
    ensures FromStr("/msg/") == Ok(PkgMsgMsg("", ""))
  {
    ThreeTokens("", "msg", "");
    assert "/msg/" == "" + "/" + "msg" + "/" + "";
  }

  /** Texts that do not split into exactly three tokens are rejected. */
  lemma TokenCountRejected(a: string, b: string)
    requires '/' !in a && '/' !in b
    ensures FromStr(a + "/" + b).Err?
  {
    assert [a, b][1..] == [b];
    assert Join([a, b], '/') == a + "/" + b;
    SplitJoin([a, b], '/');
  }

  /** Wildcard combinations other than the full and the message wildcard are rejected. */
  lemma WildcardCombinationsRejected(name: string, kind: string)
    requires IsPackageName(name) && IsMessageName(name) && name != "*" && kind in ["msg", "srv", "action"]
    ensures FromStr("*/" + kind + "/*").Err?
    ensures FromStr("*/*/" + name).Err?
    ensures FromStr(name + "/*/" + name).Err?
  {
    NameHasNoSlash(name);
    ThreeTokens("*", kind, "*");
    assert "*/" + kind + "/*" == "*" + "/" + kind + "/" + "*";
    ThreeTokens("*", "*", name);
    assert "*/*/" + name == "*" + "/" + "*" + "/" + name;
    ThreeTokens(name, "*", name);
    assert name + "/*/" + name == name + "/" + "*" + "/" + name;
  }
}
