/** The texts that the URI constructor accepts, described without the parser. */
module UriAcceptance {
  import opened Wrappers
  import opened UriText
  import opened UriParse
  import opened UriPrint

  /** Empty, or an authority of the accepted form. */
  ghost predicate AuthorityAccepted(a: string) {
    a == "" || exists r, at, port :: AuthorityForm(a, r, at, port)
  }

  lemma AuthorityAcceptedExactly(a: string)
    ensures AuthorityAccepted(a) <==> a == "" || ParseAuthority(a).Some?
  {
    hide ParseAuthority, AuthorityForm;
    if a != "" && ParseAuthority(a).Some? {
      AuthorityExactly(a, ParseAuthority(a).value);
    }
    if r, at, port :| AuthorityForm(a, r, at, port) {
      AuthorityExactly(a, r);
    }
  }

  /** The scheme that ends at i is valid, and unless it is "file" so is the authority after it. */
  ghost predicate AcceptedAt(u: string, i: nat) {
    && SchemeAt(u, i)
    && ValidScheme(Lower(u[..i]))
    && (Lower(u[..i]) == "file" || AuthorityAccepted(AuthoritySplit(u[i + 3..]).0))
  }

  /** A text is accepted exactly when it has no scheme, or a valid one with, unless it is
      "file", an acceptable authority. */
  lemma AcceptedExactly(u: string)
    ensures Parse(u).Some? <==> (forall i: nat :: !SchemeAt(u, i)) || exists i: nat :: AcceptedAt(u, i)
  {
    hide Parse, AcceptedAt, SchemeAt;
    if i: nat :| SchemeAt(u, i) {
      AcceptedWithScheme(u, i);
      forall j: nat | AcceptedAt(u, j)
        ensures j == i
      {
        SchemeUnique(u, i, j);
      }
    } else {
      AcceptedWithoutScheme(u);
    }
  }

  lemma SchemeUnique(u: string, i: nat, j: nat)
    requires SchemeAt(u, i) && AcceptedAt(u, j)
    ensures j == i
  {
    hide SchemeSplit, ValidScheme, AuthorityAccepted;
    SchemeSplitAt(u, i);
    SchemeSplitAt(u, j);
    assert |u[..i]| == |u[..j]|;
  }

  lemma AcceptedWithoutScheme(u: string)
    requires forall i: nat :: !SchemeAt(u, i)
    ensures Parse(u).Some? && SchemeSplit(u) == ("", u)
  {
    hide SchemeSplit, FromPath, SchemeAt, ValidScheme;
    if SchemeSplit(u).0 != "" {
      var i := SchemeSplitSome(u);
    }
    NoScheme(u);
    TailShape(EMPTY, u);
  }

  lemma AcceptedWithScheme(u: string, i: nat)
    requires SchemeAt(u, i)
    ensures Parse(u).Some? <==> AcceptedAt(u, i)
  {
    hide SchemeSplit, FromPath, ValidScheme, AuthoritySplit, ParseAuthority, Lower;
    SchemeSplitAt(u, i);
    var scheme, rest := Lower(u[..i]), u[i + 3..];
    SchemeNotEmpty(u, i);
    var (a, tail) := AuthoritySplit(rest);
    var d := EMPTY.(scheme := scheme);
    AuthorityAcceptedExactly(a);
    TailShape(d, rest);
    TailShape(d, tail);
    if ParseAuthority(a).Some? {
      var b := ParseAuthority(a).value;
      TailShape(d.(userinfo := b.userinfo, host := b.host, port := b.port), tail);
    }
  }

  lemma SchemeNotEmpty(u: string, i: nat)
    requires SchemeAt(u, i)
    ensures Lower(u[..i]) != ""
  {
    assert |Lower(u[..i])| == i;
  }
}
