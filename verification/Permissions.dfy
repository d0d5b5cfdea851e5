/** The permission index of WASI extensions: four-part requests looked up as one joined string. */
module Permissions {

  /** One declared resource rule. */
  datatype Resource = Resource(group: string, version: string, resource: string, methods: seq<string>)

  /** What an extension asks for. */
  datatype Request = Request(group: string, version: string, resource: string, verb: string)

  /** `perm.String()+"."+method` and the lookup key of `isAllowed`. */
  function Key(r: Request): string {
    r.group + "/" + r.version + "/" + r.resource + "." + r.verb
  }

  // ---------------------------------------------------------------- the CRD's field patterns

  predicate LowerOrDigit(c: char) {
    'a' <= c <= 'z' || '0' <= c <= '9'
  }

  /** `[a-z]([-a-z0-9]*[a-z0-9])?`, with dots inside when `dots`. */
  predicate MatchesPattern(s: string, dots: bool) {
    && s != [] && 'a' <= s[0] <= 'z'
    && LowerOrDigit(s[|s| - 1])
    && forall i :: 0 <= i < |s| ==> LowerOrDigit(s[i]) || s[i] == '-' || (dots && s[i] == '.')
  }

  predicate IsMethod(s: string) {
    s in ["get", "create", "update", "delete"]
  }

  predicate WellDeclared(p: Resource) {
    && MatchesPattern(p.group, true) && MatchesPattern(p.version, false) && MatchesPattern(p.resource, false)
    && forall m :: m in p.methods ==> IsMethod(m)
  }

  /** Rule `p` lists precisely the four values of the request. */
  predicate Lists(p: Resource, r: Request) {
    p.group == r.group && p.version == r.version && p.resource == r.resource && r.verb in p.methods
  }

  // ---------------------------------------------------------------- building and asking

  ghost predicate IsIndex(permissions: set<string>, rules: seq<Resource>) {
    forall key :: key in permissions <==>
      exists i, m :: 0 <= i < |rules| && m in rules[i].methods &&
        key == Key(Request(rules[i].group, rules[i].version, rules[i].resource, m))
  }

  /** The nested loops that fill the permission set. */
  method BuildIndex(rules: seq<Resource>) returns (permissions: set<string>)
    ensures IsIndex(permissions, rules)
  {
    permissions := {};
    for n := 0 to |rules|
      invariant forall key :: key in permissions <==>
        exists i, m :: 0 <= i < n && m in rules[i].methods &&
          key == Key(Request(rules[i].group, rules[i].version, rules[i].resource, m))
    {
      var perm := rules[n];
      ghost var before := permissions;
      for k := 0 to |perm.methods|
        invariant forall key :: key in permissions <==>
          key in before ||
          exists m :: m in perm.methods[..k] && key == Key(Request(perm.group, perm.version, perm.resource, m))
      {
        permissions := permissions + {Key(Request(perm.group, perm.version, perm.resource, perm.methods[k]))};
        assert perm.methods[..k + 1] == perm.methods[..k] + [perm.methods[k]];
      }
      assert perm.methods[..|perm.methods|] == perm.methods;
    }
  }

  predicate IsAllowed(permissions: set<string>, r: Request) {
    Key(r) in permissions
  }

  // ---------------------------------------------------------------- the key is unambiguous

  function Count(s: string, c: char): nat {
    if s == [] then 0 else Count(s[..|s| - 1], c) + if s[|s| - 1] == c then 1 else 0
  }

  lemma {:induction false} CountConcat(s: string, t: string, c: char)
    ensures Count(s + t, c) == Count(s, c) + Count(t, c)
    decreases |t|
  {
    if t == [] {
      assert s + t == s;
    } else {
      assert (s + t)[..|s + t| - 1] == s + t[..|t| - 1];
      CountConcat(s, t[..|t| - 1], c);
    }
  }

  lemma {:induction false} CountZero(s: string, c: char)
    ensures Count(s, c) == 0 <==> c !in s
  {
    if s != [] {
      CountZero(s[..|s| - 1], c);
      assert s == s[..|s| - 1] + [s[|s| - 1]];
    }
  }

  /** Text before and after the only separator is determined by the joined text. */
  lemma {:induction false} SplitOnce(a: string, b: string, a': string, b': string, sep: char)
    requires a + [sep] + b == a' + [sep] + b'
    requires sep !in a && sep !in a'
    ensures a == a' && b == b'
  {
    var s := a + [sep] + b;
    assert s[|a|] == sep && s[|a'|] == sep;
    assert forall i :: 0 <= i < |a| ==> s[i] == a[i];
    assert forall i :: 0 <= i < |a'| ==> s[i] == a'[i];
    assert |a| == |a'|;
    assert a == s[..|a|] && a' == s[..|a|];
    assert b == s[|a| + 1..] && b' == s[|a| + 1..];
  }

  lemma {:induction false} KeySeparators(r: Request)
    ensures Count(Key(r), '/') ==
      2 + Count(r.group, '/') + Count(r.version, '/') + Count(r.resource, '/') + Count(r.verb, '/')
  {
    var s1 := r.group + "/";
    var s2 := s1 + r.version;
    var s3 := s2 + "/";
    var s4 := s3 + r.resource;
    var s5 := s4 + ".";
    CountConcat(r.group, "/", '/');
    CountConcat(s1, r.version, '/');
    CountConcat(s2, "/", '/');
    CountConcat(s3, r.resource, '/');
    CountConcat(s4, ".", '/');
    CountConcat(s5, r.verb, '/');
    assert "/"[..0] == "" && "."[..0] == "";
    assert Count("/", '/') == 1 && Count(".", '/') == 0;
  }

  /** The part of a key after its two slashes. */
  function Tail(r: Request): string {
    r.resource + "." + r.verb
  }

  lemma {:induction false} TailDots(r: Request)
    ensures Count(Tail(r), '.') == 1 + Count(r.resource, '.') + Count(r.verb, '.')
  {
    CountConcat(r.resource, ".", '.');
    CountConcat(r.resource + ".", r.verb, '.');
    assert "."[..0] == "";
    assert Count(".", '.') == 1;
  }

  /** A declared rule's values hold no separator that could be mistaken. */
  predicate Separable(r: Request) {
    && '/' !in r.group && '/' !in r.version && '/' !in r.resource && '/' !in r.verb
    && '.' !in r.resource && '.' !in r.verb
  }

  lemma WellDeclaredSeparable(p: Resource, m: string)
    requires WellDeclared(p) && m in p.methods
    ensures Separable(Request(p.group, p.version, p.resource, m))
  {
    assert IsMethod(m);
  }

  lemma {:induction false} SlashFree(d: Request, r: Request)
    requires Separable(d) && Key(d) == Key(r)
    ensures '/' !in r.group && '/' !in r.version
  {
    KeySeparators(d);
    KeySeparators(r);
    CountZero(d.group, '/');
    CountZero(d.version, '/');
    CountZero(d.resource, '/');
    CountZero(d.verb, '/');
    CountZero(r.group, '/');
    CountZero(r.version, '/');
  }

  lemma KeyParts(r: Request)
    ensures Key(r) == r.group + ['/'] + (r.version + ['/'] + Tail(r))
  {
  }

  lemma {:induction false} TailInjective(d: Request, r: Request)
    requires '.' !in d.resource && '.' !in d.verb && Tail(d) == Tail(r)
    ensures d.resource == r.resource && d.verb == r.verb
  {
    TailDots(d);
    TailDots(r);
    CountZero(d.resource, '.');
    CountZero(d.verb, '.');
    CountZero(r.resource, '.');
    SplitOnce(d.resource, d.verb, r.resource, r.verb, '.');
  }

  /** One side being separable is enough: the other may be any four strings whatever. */
  lemma {:induction false} KeyInjective(d: Request, r: Request)
    requires Separable(d) && Key(d) == Key(r)
    ensures d == r
  {
    SlashFree(d, r);
    KeyParts(d);
    KeyParts(r);
    SplitOnce(d.group, d.version + ['/'] + Tail(d), r.group, r.version + ['/'] + Tail(r), '/');
    SplitOnce(d.version, Tail(d), r.version, Tail(r), '/');
    TailInjective(d, r);
  }

  /** A request, of arbitrary strings, is allowed exactly when some declared rule lists it. */
  lemma {:induction false} AllowedIffListed(rules: seq<Resource>, permissions: set<string>, r: Request)
    requires IsIndex(permissions, rules)
    requires forall p :: p in rules ==> WellDeclared(p)
    ensures IsAllowed(permissions, r) <==> exists p :: p in rules && Lists(p, r)
  {
    if IsAllowed(permissions, r) {
      var i, m :| 0 <= i < |rules| && m in rules[i].methods &&
        Key(r) == Key(Request(rules[i].group, rules[i].version, rules[i].resource, m));
      WellDeclaredSeparable(rules[i], m);
      KeyInjective(Request(rules[i].group, rules[i].version, rules[i].resource, m), r);
      assert rules[i] in rules && Lists(rules[i], r);
    }
    if p :| p in rules && Lists(p, r) {
      var i :| 0 <= i < |rules| && rules[i] == p;
      assert r.verb in rules[i].methods;
    }
  }

  /** Without the patterns one key can stand for two requests: a slash may belong to either side. */
  lemma PatternsAreNeeded(group: string, version: string, resource: string, name: string, verb: string)
    ensures
      var a := Request(group + "/" + version, resource, name, verb);
      var b := Request(group, version, resource + "/" + name, verb);
      a != b && Key(a) == Key(b)
  {
    assert |group + "/" + version| > |group|;
  }

  /** The patterns demand a nonempty group, so nothing in the core API group is ever allowed. */
  lemma CoreGroupNeverAllowed(rules: seq<Resource>, permissions: set<string>, r: Request)
    requires IsIndex(permissions, rules) && r.group == ""
    requires forall p :: p in rules ==> WellDeclared(p)
    ensures !IsAllowed(permissions, r)
  {
    AllowedIffListed(rules, permissions, r);
  }
}
