/**
 The DNS front of the allocator: suffix normalisation and the read-only lookup.
 Letter case follows section 2.3.3 of RFC 1035: only the ASCII letters have one.
 */
module Dns {
  import opened Common
  import opened VipAllocator

  /** The letter at the same place of the alphabet, and every other character as it is. */
  function LowerChar(c: char): (r: char)
    ensures 'A' <= c <= 'Z' ==> 'a' <= r <= 'z' && r as int - 'a' as int == c as int - 'A' as int
    ensures !('A' <= c <= 'Z') ==> r == c
  {
    if 'A' <= c <= 'Z' then (c as int + 32) as char else c
  }

  function ToLower(s: string): string {
    seq(|s|, i requires 0 <= i < |s| => LowerChar(s[i]))
  }

  predicate HasSuffix(s: string, suffix: string) {
    |suffix| <= |s| && s[|s| - |suffix|..] == suffix
  }

  function TrimSuffix(s: string, suffix: string): string {
    if HasSuffix(s, suffix) then s[..|s| - |suffix|] else s
  }

  /** The white space of Unicode. */
  predicate IsSpace(c: char) {
    var n := c as int;
    || 9 <= n <= 13 || n == 0x20 || n == 0x85 || n == 0xA0 || n == 0x1680 || 0x2000 <= n <= 0x200A
    || n == 0x2028 || n == 0x2029 || n == 0x202F || n == 0x205F || n == 0x3000
  }

  function TrimSpace(s: string): string {
    if s != "" && IsSpace(s[0]) then TrimSpace(s[1..])
    else if s != "" && IsSpace(s[|s| - 1]) then TrimSpace(s[..|s| - 1])
    else s
  }

  /** The suffix a server keeps: lower-case and, unless empty, dot-prefixed. */
  function NormalizeSuffix(raw: string): string {
    var s := ToLower(TrimSpace(raw));
    if s != "" && s[0] != '.' then "." + s else s
  }

  /** The query a lookup compares: one trailing dot dropped, lower-cased. */
  function Canonical(qname: string): string {
    ToLower(TrimSuffix(qname, "."))
  }

  function Resolve(suffix: string, byName: map<string, nat>, qname: string): Option<nat> {
    var name := Canonical(qname);
    if suffix != "" && !HasSuffix(name, suffix) then None
    else
      var bare := if suffix != "" then TrimSuffix(name, suffix) else name;
      if bare == "" || bare !in byName then None else Some(byName[bare])
  }

  lemma LowerIdempotent(s: string)
    ensures ToLower(ToLower(s)) == ToLower(s)
  {
  }

  lemma LowerConcat(a: string, b: string)
    ensures ToLower(a + b) == ToLower(a) + ToLower(b)
  {
  }

  lemma LowerKeepsDots(s: string, i: nat)
    requires i < |s|
    ensures ToLower(s)[i] == '.' <==> s[i] == '.'
  {
  }

  /** What a server's suffix looks like, whatever was configured. */
  lemma NormalizedSuffix(raw: string)
    ensures ToLower(NormalizeSuffix(raw)) == NormalizeSuffix(raw)
    ensures NormalizeSuffix(raw) != "" ==> NormalizeSuffix(raw)[0] == '.'
    ensures NormalizeSuffix(NormalizeSuffix(raw)) == NormalizeSuffix(raw)
  {
    var s := ToLower(TrimSpace(raw));
    LowerIdempotent(TrimSpace(raw));
    LowerConcat(".", s);
    var _, _ := TrimmedEnds(raw);
    Trimmed(NormalizeSuffix(raw));
  }

  predicate AllSpace(s: string) {
    forall c <- s :: IsSpace(c)
  }

  /** Trimming cuts white space off both ends, all of it and nothing else. */
  lemma {:induction false} TrimmedEnds(s: string) returns (front: string, back: string)
    ensures var t := TrimSpace(s); t != "" ==> !IsSpace(t[0]) && !IsSpace(t[|t| - 1])
    ensures s == front + TrimSpace(s) + back && AllSpace(front) && AllSpace(back)
    decreases |s|
  {
    front, back := "", "";
    if s != "" && IsSpace(s[0]) {
      front, back := TrimmedEnds(s[1..]);
      front := [s[0]] + front;
    } else if s != "" && IsSpace(s[|s| - 1]) {
      front, back := TrimmedEnds(s[..|s| - 1]);
      back := back + [s[|s| - 1]];
    }
  }

  lemma Trimmed(s: string)
    requires s != "" ==> !IsSpace(s[0]) && !IsSpace(s[|s| - 1])
    ensures TrimSpace(s) == s
  {
  }

  /** The kept suffix is what was configured between white space, in lower case, with a dot put in front
      if it has none. `TrimmedEnds` shows that every configured string has this form. */
  lemma {:induction false} KeptSuffix(front: string, core: string, back: string)
    requires AllSpace(front) && AllSpace(back) && (core != "" ==> !IsSpace(core[0]) && !IsSpace(core[|core| - 1]))
    ensures NormalizeSuffix(front + core + back)
            == if core == "" || core[0] == '.' then ToLower(core) else "." + ToLower(core)
  {
    TrimmedToCore(front, core, back);
  }

  lemma {:induction false} TrimmedToCore(front: string, core: string, back: string)
    requires AllSpace(front) && AllSpace(back) && (core != "" ==> !IsSpace(core[0]) && !IsSpace(core[|core| - 1]))
    ensures TrimSpace(front + core + back) == core
    decreases |front| + |back|
  {
    var s := front + core + back;
    if front != "" {
      assert s[1..] == front[1..] + core + back;
      TrimmedToCore(front[1..], core, back);
    } else if back != "" {
      if core == "" {
        assert s == back && s[1..] == "" + core + back[1..];
        TrimmedToCore("", core, back[1..]);
      } else {
        assert s[|s| - 1] == back[|back| - 1] && s[..|s| - 1] == "" + core + back[..|back| - 1];
        TrimmedToCore("", core, back[..|back| - 1]);
      }
    } else {
      assert s == core;
      Trimmed(core);
    }
  }

  lemma SplitSuffix(name: string, suffix: string)
    ensures HasSuffix(name + suffix, suffix) && TrimSuffix(name + suffix, suffix) == name
  {
  }

  /** A query resolves to an address exactly when, with one trailing dot dropped and letters lowered,
      it is a non-empty allocated name followed by the suffix. */
  lemma ResolvesExactly(suffix: string, byName: map<string, nat>, qname: string, ip: nat)
    ensures Resolve(suffix, byName, qname) == Some(ip) <==>
            exists name :: name != "" && name in byName && byName[name] == ip && Canonical(qname) == name + suffix
  {
    var q := Canonical(qname);
    forall name | name in byName && q == name + suffix
      ensures HasSuffix(q, suffix) && TrimSuffix(q, suffix) == name && (suffix == "" ==> q == name)
    {
      SplitSuffix(name, suffix);
    }
    if Resolve(suffix, byName, qname) == Some(ip) {
      var name := TrimSuffix(q, suffix);
      assert q == name + suffix;
    }
  }

  ghost predicate Injective(byName: map<string, nat>) {
    forall m, n | m in byName && n in byName && byName[m] == byName[n] :: m == n
  }

  lemma ResolvesTo(suffix: string, byName: map<string, nat>, qname: string, name: string)
    requires Injective(byName) && name != "" && name in byName
    ensures Resolve(suffix, byName, qname) == Some(byName[name]) <==> Canonical(qname) == name + suffix
  {
    ResolvesExactly(suffix, byName, qname, byName[name]);
  }

  /** Any spelling of name plus suffix with a trailing dot resolves; without one it resolves exactly
      when the spelling does not itself end in a dot. */
  lemma EverySpellingResolves(suffix: string, byName: map<string, nat>, qname: string, name: string)
    requires Injective(byName) && name != "" && name in byName
    ensures ToLower(qname) == name + suffix + "." ==>
              Resolve(suffix, byName, qname) == Some(byName[name])
    ensures ToLower(qname) == name + suffix ==>
              (Resolve(suffix, byName, qname) == Some(byName[name])
               <==> (name + suffix)[|name + suffix| - 1] != '.')
  {
    ResolvesTo(suffix, byName, qname, name);
    var full := name + suffix;
    if ToLower(qname) == full + "." {
      LowerKeepsDots(qname, |qname| - 1);
      assert qname[|qname| - 1..] == ".";
      assert Canonical(qname) == ToLower(qname)[..|full|] == full;
    } else if ToLower(qname) == full {
      LowerKeepsDots(qname, |qname| - 1);
      if full[|full| - 1] == '.' {
        assert qname[|qname| - 1..] == ".";
        assert |Canonical(qname)| == |full| - 1;
      }
    }
  }

  lemma LowerPrefix(s: string, a: string, b: string)
    requires ToLower(s) == a + b
    ensures ToLower(a) == a
  {
    forall i | 0 <= i < |a|
      ensures LowerChar(a[i]) == a[i]
    {
      assert ToLower(s)[i] == a[i];
    }
  }

  /** A name allocated with an upper-case letter is out of reach of every query. */
  lemma UpperCaseNeverResolves(raw: string, byName: map<string, nat>, qname: string, name: string)
    requires Injective(byName) && name != "" && name in byName && ToLower(name) != name
    ensures Resolve(NormalizeSuffix(raw), byName, qname) != Some(byName[name])
  {
    var suffix := NormalizeSuffix(raw);
    ResolvesTo(suffix, byName, qname, name);
    if Canonical(qname) == name + suffix {
      LowerPrefix(TrimSuffix(qname, "."), name, suffix);
    }
  }

  /** DNS and the transparent proxy agree: an address answers a query exactly when the service the
      proxy finds behind it is the queried name, lower-cased and stripped of its dot and suffix. */
  lemma ProxyAgrees(suffix: string, byName: map<string, nat>, byIP: map<nat, string>, qname: string, ip: nat)
    requires Inverse(byName, byIP)
    ensures Resolve(suffix, byName, qname) == Some(ip) <==>
            ServiceOf(byIP, ip) != "" && ServiceOf(byIP, ip) + suffix == Canonical(qname)
  {
    ResolvesExactly(suffix, byName, qname, ip);
  }
}
