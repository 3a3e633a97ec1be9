/** Domain names in ASCII form, suffixes, and the dot-boundary suffix relation. */
module Domains {
  /** The empty suffix is the root. */
  type Suffix = string

  datatype Domain = FQDN(name: string) | Wildcard(zone: string)

  function DnsName(d: Domain): string {
    match d
    case FQDN(name) => name
    case Wildcard(zone) => if zone == "" then "*" else "*." + zone
  }

  /** Parsing a domain never leaves a wildcard in an FQDN. */
  predicate Parsed(d: Domain) {
    d.FQDN? ==> d.name != "*" && !("*." <= d.name)
  }

  /** Hence parsed domains are determined by their ASCII names. */
  lemma ParsedByName(a: Domain, b: Domain)
    requires Parsed(a) && Parsed(b) && DnsName(a) == DnsName(b)
    ensures a == b
  {
    if a.Wildcard? && b.Wildcard? && a.zone != "" && b.zone != "" {
      assert DnsName(a)[2..] == a.zone && DnsName(b)[2..] == b.zone;
    } else {
      assert a.Wildcard? && a.zone != "" ==> "*." <= DnsName(a);
      assert b.Wildcard? && b.zone != "" ==> "*." <= DnsName(b);
    }
  }

  predicate EndsWith(s: string, suffix: string) {
    |suffix| <= |s| && s[|s| - |suffix|..] == suffix
  }

  /** suffix is a proper dot-delimited suffix of s. */
  predicate StrictlyUnder(s: string, suffix: Suffix) {
    if suffix == "" then s != ""
    else EndsWith(s, suffix) && |s| > |suffix| && s[|s| - |suffix| - 1] == '.'
  }

  /** A name with non-empty labels. */
  predicate IsName(s: string) {
    s != "" && forall i :: 0 <= i < |s| && s[i] == '.' ==> 0 < i < |s| - 1 && s[i + 1] != '.'
  }

  /** The name first.s, or just first under the root. */
  function Child(first: string, s: Suffix): string {
    if s == "" then first else first + "." + s
  }

  lemma UnderShorter(s: string, t: Suffix)
    requires StrictlyUnder(s, t)
    ensures |t| < |s|
  {
  }

  lemma UnderTransitive(a: string, b: string, c: string)
    requires StrictlyUnder(a, b) && StrictlyUnder(b, c)
    ensures StrictlyUnder(a, c)
  {
    if c != "" {
      assert b == a[|a| - |b|..];
      assert a[|a| - |c|..] == b[|b| - |c|..];
      assert a[|a| - |c| - 1] == b[|b| - |c| - 1];
    }
  }

  /** Two suffixes of one name are comparable. */
  lemma UnderComparable(n: string, s: Suffix, t: Suffix)
    requires StrictlyUnder(n, s) && StrictlyUnder(n, t) && |t| <= |s|
    ensures s == t || StrictlyUnder(s, t)
  {
    if t != "" {
      assert s == n[|n| - |s|..];
      assert s[|s| - |t|..] == n[|n| - |t|..];
      if |t| < |s| { assert s[|s| - |t| - 1] == n[|n| - |t| - 1]; }
    }
  }

  lemma ChildIsUnder(first: string, s: Suffix)
    requires first != ""
    ensures StrictlyUnder(Child(first, s), s)
  {
    if s != "" { assert Child(first, s)[|first| + 1..] == s; }
  }

  /** A name one dot-free label below s lies under s and what s lies under, and nothing else. */
  lemma UnderChild(first: string, s: Suffix, t: Suffix)
    requires first != "" && '.' !in first && StrictlyUnder(Child(first, s), t)
    ensures s == t || StrictlyUnder(s, t)
  {
    var n := Child(first, s);
    ChildIsUnder(first, s);
    assert forall i :: 0 <= i < |first| ==> n[i] == first[i] != '.';
    if |t| <= |s| {
      UnderComparable(n, s, t);
    }
  }

  lemma ChildIsName(first: string, s: Suffix)
    requires first != "" && '.' !in first && (s == "" || IsName(s))
    ensures IsName(Child(first, s))
  {
    var n := Child(first, s);
    assert forall i :: 0 <= i < |first| ==> n[i] == first[i] != '.';
    assert s != "" ==> s[0] != '.';
    forall i | 0 <= i < |n| && n[i] == '.' ensures 0 < i < |n| - 1 && n[i + 1] != '.' {
      if i > |first| {
        assert s[i - |first| - 1] == n[i];
        assert s[i - |first|] == n[i + 1];
      }
    }
  }
}
