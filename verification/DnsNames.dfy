/** DNS names in the form the store keeps them (internal/store/dns.go). */
module DnsNames {

  predicate IsSpace(c: char) {
    c == ' ' || '\t' <= c <= '\r'
  }

  function TrimLeft(s: string): string {
    if s != "" && IsSpace(s[0]) then TrimLeft(s[1..]) else s
  }

  function TrimRight(s: string): string {
    if s != "" && IsSpace(s[|s| - 1]) then TrimRight(s[..|s| - 1]) else s
  }

  function TrimDot(s: string): string {
    if s != "" && s[|s| - 1] == '.' then s[..|s| - 1] else s
  }

  function LowerChar(c: char): char {
    if 'A' <= c <= 'Z' then c - 'A' + 'a' else c
  }

  function Lower(s: string): string {
    seq(|s|, i requires 0 <= i < |s| => LowerChar(s[i]))
  }

  function Normalize(s: string): string {
    Lower(TrimDot(TrimRight(TrimLeft(s))))
  }

  function Fqdn(name: string, zone: string): string {
    name + "." + zone
  }

  /** Lower case and not led by a space, as every normalized name is. */
  predicate Tidy(s: string) {
    && (s != "" ==> !IsSpace(s[0]))
    && forall i | 0 <= i < |s| :: !('A' <= s[i] <= 'Z')
  }

  lemma {:induction false} TrimLeftLeads(s: string)
    ensures TrimLeft(s) != "" ==> !IsSpace(TrimLeft(s)[0])
  {
    if s != "" && IsSpace(s[0]) { TrimLeftLeads(s[1..]); }
  }

  lemma {:induction false} TrimRightIsPrefix(s: string)
    ensures TrimRight(s) <= s
    ensures TrimRight(s) == s <==> s == "" || !IsSpace(s[|s| - 1])
  {
    if s != "" && IsSpace(s[|s| - 1]) { TrimRightIsPrefix(s[..|s| - 1]); }
  }

  lemma NormalizedIsTidy(s: string)
    ensures Tidy(Normalize(s))
  {
    TrimLeftLeads(s);
    TrimRightIsPrefix(TrimLeft(s));
    var t := TrimDot(TrimRight(TrimLeft(s)));
    assert t != "" ==> t[0] == TrimLeft(s)[0];
  }

  /** A zone under which names are stored as they are asked for. */
  predicate Usable(zone: string) {
    Tidy(zone) && zone != "" && zone[|zone| - 1] != '.' && !IsSpace(zone[|zone| - 1])
  }

  /** The name a container is registered under is stored unchanged exactly under a usable zone: an empty
      one, or one that still ends in a dot or a space, has its last character cut by the store, and then
      no registration is ever recognised again. */
  lemma StoredIffUsable(name: string, zone: string)
    requires Tidy(name) && Tidy(zone)
    ensures Normalize(Fqdn(name, zone)) == Fqdn(name, zone) <==> Usable(zone)
  {
    var f := Fqdn(name, zone);
    var last := f[|f| - 1];
    assert last == if zone == "" then '.' else zone[|zone| - 1];
    assert forall i | 0 <= i < |f| :: f[i] == if i < |name| then name[i] else if i == |name| then '.' else zone[i - |name| - 1];
    assert TrimLeft(f) == f;
    TrimRightIsPrefix(f);
    if Usable(zone) {
      assert Lower(f) == f;
    } else {
      assert |Normalize(f)| < |f|;
    }
  }
}
