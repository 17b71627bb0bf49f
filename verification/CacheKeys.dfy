/**
 * The string keys of the version-keyed cache: the caller's key, `#`, and `resource@version` for each
 * resource, separated by commas. What such a string identifies, and exactly when.
 */
module CacheKeys {
  type Resource = string

  /** What a resolved key stands for: the caller's key and the version of each resource at the call. */
  datatype Key = Key(key: string, versions: seq<(Resource, nat)>)

  /** The string under which a key is cached and computed. */
  type Rendered = string

  const DIGITS := "0123456789"

  function Decimal(n: nat): (d: string)
    ensures d != []
  {
    var last := [DIGITS[n % 10]];
    if n < 10 then last else Decimal(n / 10) + last
  }

  function RenderVersion(v: (Resource, nat)): string { v.0 + ['@'] + Decimal(v.1) }

  /** The comma-separated list. */
  function Join(vs: seq<(Resource, nat)>): string {
    if vs == [] then []
    else
      var n := |vs| - 1;
      if n == 0 then RenderVersion(vs[0]) else Join(vs[..n]) + [','] + RenderVersion(vs[n])
  }

  function Render(k: Key): Rendered { k.key + ['#'] + Join(k.versions) }

  /** A string that reads as a resource with its version. */
  ghost predicate Versioned(s: string) {
    exists v: (Resource, nat) :: s == RenderVersion(v)
  }

  /** Neither `#` nor a comma right after what reads as a resource with its version. */
  ghost predicate PlainResource(r: Resource) {
    '#' !in r && forall i | 0 <= i < |r| && r[i] == ',' :: !Versioned(r[..i])
  }

  ghost predicate AllPlain(vs: seq<(Resource, nat)>) {
    forall i | 0 <= i < |vs| :: PlainResource(vs[i].0)
  }

  ghost predicate Plain(k: Key) { AllPlain(k.versions) }

  // ----- plain resources: the string identifies the key

  /** A string splits at the last occurrence of a character in only one way. */
  lemma LastSplit(a: string, b: string, a': string, b': string, c: char)
    requires c !in b && c !in b' && a + [c] + b == a' + [c] + b'
    ensures a == a' && b == b'
  {
    var s := a + [c] + b;
    assert forall i | 0 <= i < |b| :: s[|a| + 1 + i] == b[i];
    assert forall i | 0 <= i < |b'| :: s[|a'| + 1 + i] == b'[i];
    assert s[|a|] == c && s[|a'|] == c;
    assert |a| == |a'| by {
      assert forall i | |a| < i < |s| :: s[i] == b[i - |a| - 1];
      assert forall i | |a'| < i < |s| :: s[i] == b'[i - |a'| - 1];
    }
    assert a == s[..|a|] == a' && b == s[|a| + 1..] == b';
  }

  lemma {:induction false} DecimalIsPlain(n: nat)
    ensures '#' !in Decimal(n) && ',' !in Decimal(n) && '@' !in Decimal(n)
  {
    assert forall i | 0 <= i < 10 :: DIGITS[i] != '#' && DIGITS[i] != ',' && DIGITS[i] != '@';
    if n >= 10 { DecimalIsPlain(n / 10); }
  }

  lemma {:induction false} DecimalIsInjective(m: nat, n: nat)
    requires Decimal(m) == Decimal(n)
    ensures m == n
  {
    assert Decimal(m)[|Decimal(m)| - 1] == DIGITS[m % 10] && Decimal(n)[|Decimal(n)| - 1] == DIGITS[n % 10];
    assert forall i, j | 0 <= i < j < 10 :: DIGITS[i] != DIGITS[j];
    assert m % 10 == n % 10;
    if m >= 10 && n >= 10 {
      assert Decimal(m)[..|Decimal(m)| - 1] == Decimal(m / 10) && Decimal(n)[..|Decimal(n)| - 1] == Decimal(n / 10);
      DecimalIsInjective(m / 10, n / 10);
    }
  }

  lemma VersionIsInjective(v: (Resource, nat), w: (Resource, nat))
    requires RenderVersion(v) == RenderVersion(w)
    ensures v == w
  {
    hide Decimal;
    DecimalIsPlain(v.1);
    DecimalIsPlain(w.1);
    LastSplit(v.0, Decimal(v.1), w.0, Decimal(w.1), '@');
    DecimalIsInjective(v.1, w.1);
  }

  /** A comma of a rendered version lies within the resource, and so does all before it. */
  lemma CommaIsInResource(v: (Resource, nat), i: nat)
    requires i < |RenderVersion(v)| && RenderVersion(v)[i] == ','
    ensures i < |v.0| && v.0[i] == ',' && RenderVersion(v)[..i] == v.0[..i]
    ensures RenderVersion(v)[i + 1..] == RenderVersion((v.0[i + 1..], v.1))
  {
    hide Decimal;
    DecimalIsPlain(v.1);
    assert forall j | |v.0| < j < |RenderVersion(v)| :: RenderVersion(v)[j] == Decimal(v.1)[j - |v.0| - 1];
  }

  lemma VersionedTail(a: string, t: string)
    requires Versioned(a + [','] + t)
    ensures Versioned(t)
  {
    hide RenderVersion;
    var s := a + [','] + t;
    var v: (Resource, nat) :| s == RenderVersion(v);
    CommaIsInResource(v, |a|);
    assert t == s[|a| + 1..];
  }

  lemma PrefixedVersion(a: string, v: (Resource, nat))
    ensures Versioned(a + [','] + RenderVersion(v))
  {
    assert a + [','] + RenderVersion(v) == RenderVersion((a + [','] + v.0, v.1));
  }

  lemma JoinIsVersioned(vs: seq<(Resource, nat)>)
    requires vs != []
    ensures Versioned(Join(vs)) && Join(vs) != []
  {
    var n := |vs| - 1;
    if n > 0 { PrefixedVersion(Join(vs[..n]), vs[n]); }
    assert forall v: (Resource, nat) :: RenderVersion(v) != [];
  }

  lemma {:induction false} JoinHasNoHash(vs: seq<(Resource, nat)>)
    requires AllPlain(vs)
    ensures '#' !in Join(vs)
  {
    hide Decimal;
    if vs != [] {
      var n := |vs| - 1;
      assert PlainResource(vs[n].0);
      DecimalIsPlain(vs[n].1);
      JoinHasNoHash(vs[..n]);
    }
  }

  /** Nothing that ends with a version can stop at a comma of a plain resource. */
  lemma NotLonger(a: string, v: (Resource, nat), a': string, p: string)
    requires PlainResource(v.0) && Versioned(a') && a + [','] + RenderVersion(v) == a' + [','] + p
    ensures |a'| <= |a|
  {
    hide RenderVersion, Versioned;
    if |a| < |a'| {
      var s := a + [','] + RenderVersion(v);
      var t := a'[|a| + 1..];
      assert s[..|a|] == a && s[|a|] == ',' && s[..|a'|] == a' && s[|a'|] == ',';
      assert a' == a + [','] + t;
      VersionedTail(a, t);
      assert RenderVersion(v) == s[|a| + 1..];
      assert RenderVersion(v)[..|t|] == t;
      CommaIsInResource(v, |t|);
    }
  }

  lemma SingleIsNotLonger(v: (Resource, nat), a: string, p: string)
    requires PlainResource(v.0) && RenderVersion(v) == a + [','] + p
    ensures !Versioned(a)
  {
    hide RenderVersion, Versioned;
    CommaIsInResource(v, |a|);
    assert (a + [','] + p)[..|a|] == a;
  }

  lemma {:induction false} JoinIsInjective(vs: seq<(Resource, nat)>, ws: seq<(Resource, nat)>)
    requires AllPlain(vs) && AllPlain(ws) && Join(vs) == Join(ws)
    ensures vs == ws
  {
    hide RenderVersion, Versioned, PlainResource;
    var m, n := |vs| - 1, |ws| - 1;
    if m >= 0 { JoinIsVersioned(vs); }
    if n >= 0 { JoinIsVersioned(ws); }
    if m > 0 { JoinIsVersioned(vs[..m]); }
    if n > 0 { JoinIsVersioned(ws[..n]); }
    if m > 0 && n > 0 {
      NotLonger(Join(vs[..m]), vs[m], Join(ws[..n]), RenderVersion(ws[n]));
      NotLonger(Join(ws[..n]), ws[n], Join(vs[..m]), RenderVersion(vs[m]));
      SameLengthSplit(Join(vs[..m]), RenderVersion(vs[m]), Join(ws[..n]), RenderVersion(ws[n]));
      JoinIsInjective(vs[..m], ws[..n]);
      VersionIsInjective(vs[m], ws[n]);
      assert vs == vs[..m] + [vs[m]] && ws == ws[..n] + [ws[n]];
    } else if m == 0 && n > 0 {
      SingleIsNotLonger(vs[0], Join(ws[..n]), RenderVersion(ws[n]));
    } else if m > 0 && n == 0 {
      SingleIsNotLonger(ws[0], Join(vs[..m]), RenderVersion(vs[m]));
    } else if m == 0 && n == 0 {
      VersionIsInjective(vs[0], ws[0]);
    }
  }

  lemma SameLengthSplit(a: string, b: string, a': string, b': string)
    requires |a| == |a'| && a + [','] + b == a' + [','] + b'
    ensures a == a' && b == b'
  {
    var s := a + [','] + b;
    assert a == s[..|a|] == a' && b == s[|a| + 1..] == b';
  }

  /** The string identifies the caller's key, the resources and their versions, whatever the caller's key is. */
  lemma RenderIsInjective(k: Key, k': Key)
    requires Plain(k) && Plain(k') && Render(k) == Render(k')
    ensures k == k'
  {
    hide Join, PlainResource;
    JoinHasNoHash(k.versions);
    JoinHasNoHash(k'.versions);
    LastSplit(k.key, Join(k.versions), k'.key, Join(k'.versions), '#');
    JoinIsInjective(k.versions, k'.versions);
  }

  // ----- other resources: two keys share a string

  /** A resource with a `#` shows part of itself as part of the caller's key. */
  lemma HashClashes(key: string, a: string, b: string, n: nat)
    ensures Render(Key(key, [(a + ['#'] + b, n)])) == Render(Key(key + ['#'] + a, [(b, n)]))
  {
  }

  /** A resource with a comma after what reads as a version shows itself as two resources. */
  lemma CommaClashes(key: string, x: string, n: nat, y: string, m: nat)
    ensures Render(Key(key, [(RenderVersion((x, n)) + [','] + y, m)])) == Render(Key(key, [(x, n), (y, m)]))
  {
    var vs := [(x, n), (y, m)];
    assert vs[..1] == [(x, n)] && Join(vs[..1]) == RenderVersion((x, n));
    assert Join(vs) == RenderVersion((x, n)) + [','] + RenderVersion((y, m));
    assert Join([(RenderVersion((x, n)) + [','] + y, m)]) == RenderVersion((x, n)) + [','] + RenderVersion((y, m));
  }
}
