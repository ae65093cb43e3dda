/** Principal names, as every part of the service spells them. */
module Names {

  /** A principal name. The realm is kept upper-cased, which is the form configuration and every
      parser of the source produce, so comparing realms without regard to case is equality here. */
  datatype Name = Name(components: seq<string>, realm: string) {

    /** "krbtgt/<realm>": the name of a ticket-granting service. */
    predicate IsTgs() {
      |components| == 2 && components[0] == "krbtgt"
    }

    /** "kadmin/changepw": the name of the password changing service. */
    predicate IsChangePw() {
      |components| == 2 && components[0] == "kadmin" && components[1] == "changepw"
    }

    /** The name without its realm, for example "HTTP/www.example.com". */
    function Principal(): string {
      Join(components)
    }

    function Full(): string {
      Principal() + "@" + realm
    }
  }

  function Join(parts: seq<string>): string {
    if |parts| == 0 then ""
    else if |parts| == 1 then parts[0]
    else parts[0] + "/" + Join(parts[1..])
  }

  /** Case folding over ASCII, for the comparisons that ignore case. */
  function Fold(s: string): string {
    seq(|s|, i requires 0 <= i < |s| => if 'A' <= s[i] <= 'Z' then s[i] - 'A' + 'a' else s[i])
  }

  predicate EqualFold(a: string, b: string) {
    Fold(a) == Fold(b)
  }

  /** Whether one entry of a delegation or impersonation list names this principal: the realm is
      ignored when the entry carries none. */
  predicate Names(entry: string, name: Name) {
    EqualFold(entry, name.Full()) || ('@' !in entry && EqualFold(entry, name.Principal()))
  }

  /** Joining puts a slash between any two components. */
  lemma {:induction false} JoinLast(parts: seq<string>, last: string)
    requires parts != []
    ensures Join(parts + [last]) == Join(parts) + "/" + last
    decreases |parts|
  {
    if |parts| > 1 {
      JoinLast(parts[1..], last);
      assert (parts + [last])[1..] == parts[1..] + [last];
    }
  }

  /** Folding leaves no capital letter, and changes nothing else than the case of one. */
  lemma FoldIsLower(s: string)
    ensures |Fold(s)| == |s|
    ensures forall i | 0 <= i < |s| :: !('A' <= Fold(s)[i] <= 'Z')
    ensures forall i | 0 <= i < |s| :: Fold(s)[i] == s[i] || (Fold(s)[i] - s[i] == 'a' - 'A')
  {
  }

  lemma FoldKeepsAt(s: string)
    ensures '@' in Fold(s) <==> '@' in s
  {
    if '@' in s {
      var i :| 0 <= i < |s| && s[i] == '@';
      assert Fold(s)[i] == '@';
    }
    if '@' in Fold(s) {
      var i :| 0 <= i < |Fold(s)| && Fold(s)[i] == '@';
      assert s[i] == '@';
    }
  }

  /** An entry with a realm names, up to case, the principals with that whole name; one without names those
      with that name in any realm. */
  lemma EntryNames(entry: string, name: Name)
    ensures '@' in entry ==> (Names(entry, name) <==> EqualFold(entry, name.Principal() + "@" + name.realm))
    ensures '@' !in entry ==> (Names(entry, name) <==> EqualFold(entry, name.Principal()))
  {
    FoldKeepsAt(entry);
    FoldKeepsAt(name.Full());
    assert name.Full()[|name.Principal()|] == '@';
  }
}
