/**
 * The user document (server/src/models/User.ts): its fields, the setters the store
 * applies on write (trim, lower-case), the default inline watchlist, the field
 * validators run before a document is saved, and the e-mail pattern
 * `^\w+([.-]?\w+)*@\w+([.-]?\w+)*(\.\w{2,3})+$` as recursive predicates.
 */
module UserModel {
  import opened Js

  // ---------------------------------------------------------------- the e-mail pattern

  /** `\w`: an ASCII letter, a digit or '_'. */
  predicate IsWordChar(c: char)
  {
    'a' <= c <= 'z' || 'A' <= c <= 'Z' || '0' <= c <= '9' || c == '_'
  }

  /** `[.-]` */
  predicate IsSep(c: char)
  {
    c == '.' || c == '-'
  }

  /** `\w+([.-]?\w+)*`: word characters where each '.' or '-' has a word character on both sides. */
  predicate Segment(s: string)
  {
    |s| >= 1 && IsWordChar(s[0]) && SegmentTail(s[1..])
  }

  /** What may follow a word character inside a segment: `\w*([.-]?\w+)*`. */
  predicate SegmentTail(t: string)
    decreases |t|
  {
    t == []
    || (IsWordChar(t[0]) && SegmentTail(t[1..]))
    || (|t| >= 2 && IsSep(t[0]) && IsWordChar(t[1]) && SegmentTail(t[2..]))
  }

  /** `(\.\w{2,3})+`: one or more labels of a dot and two or three word characters. */
  predicate Labels(t: string)
    decreases |t|
  {
    |t| >= 3 && t[0] == '.' && IsWordChar(t[1]) && IsWordChar(t[2])
    && ((t[3..] == [] || Labels(t[3..]))
        || (|t| >= 4 && IsWordChar(t[3]) && (t[4..] == [] || Labels(t[4..]))))
  }

  /** `\w+([.-]?\w+)*(\.\w{2,3})+`: a segment followed by the labels. */
  predicate Domain(d: string)
  {
    DomainFrom(d, 1)
  }

  /** The domain with its segment ending at position `k` or later. */
  predicate DomainFrom(d: string, k: nat)
    decreases |d| - k
  {
    k < |d| && ((Segment(d[..k]) && Labels(d[k..])) || DomainFrom(d, k + 1))
  }

  /** A domain is a segment and the labels, split at some position. */
  lemma {:induction false} DomainFromIff(d: string, k: nat)
    ensures DomainFrom(d, k) <==> exists m | k <= m < |d| :: Segment(d[..m]) && Labels(d[m..])
    decreases |d| - k
  {
    if k < |d| {
      DomainFromIff(d, k + 1);
    }
  }

  /** The whole pattern: a segment, '@', a domain. */
  predicate ValidEmail(s: string)
  {
    EmailFrom(s, 0)
  }

  /** The pattern with its '@' at position `i` or later. */
  predicate EmailFrom(s: string, i: nat)
    decreases |s| - i
  {
    i < |s| && ((s[i] == '@' && Segment(s[..i]) && Domain(s[i + 1..])) || EmailFrom(s, i + 1))
  }

  /** The pattern matches exactly when some '@' splits the address into a segment and a
    * domain. */
  lemma {:induction false} EmailFromIff(s: string, i: nat)
    ensures EmailFrom(s, i) <==> exists j | i <= j < |s| :: s[j] == '@' && Segment(s[..j]) && Domain(s[j + 1..])
    decreases |s| - i
  {
    if i < |s| {
      EmailFromIff(s, i + 1);
    }
  }

  lemma {:induction false} SegmentTailHasNoAt(t: string)
    requires SegmentTail(t)
    ensures '@' !in t
    decreases |t|
  {
    if t != [] {
      if IsWordChar(t[0]) && SegmentTail(t[1..]) {
        SegmentTailHasNoAt(t[1..]);
        assert t == [t[0]] + t[1..];
      } else {
        SegmentTailHasNoAt(t[2..]);
        assert t == [t[0], t[1]] + t[2..];
      }
    }
  }

  lemma {:induction false} LabelsHaveNoAt(t: string)
    requires Labels(t)
    ensures '@' !in t
    ensures IsWordChar(t[|t| - 1])
    decreases |t|
  {
    if (t[3..] == [] || Labels(t[3..])) {
      if t[3..] != [] {
        LabelsHaveNoAt(t[3..]);
      }
      assert t == t[..3] + t[3..];
    } else {
      if t[4..] != [] {
        LabelsHaveNoAt(t[4..]);
      }
      assert t == t[..4] + t[4..];
    }
  }

  lemma SegmentHasNoAt(s: string)
    requires Segment(s)
    ensures '@' !in s && IsWordChar(s[0])
  {
    SegmentTailHasNoAt(s[1..]);
    assert s == [s[0]] + s[1..];
  }

  lemma OnlyAt(s: string, i: nat)
    requires i < |s| && s[i] == '@' && '@' !in s[..i] && '@' !in s[i + 1..]
    ensures forall j :: 0 <= j < |s| && s[j] == '@' ==> j == i
  {
    forall j | 0 <= j < |s| && s[j] == '@'
      ensures j == i
    {
      if j < i {
        assert false;
      } else if j > i {
        assert false;
      }
    }
  }

  /** The part after '@' has no '@' and ends in a word character. */
  lemma DomainShape(d: string)
    requires Domain(d)
    ensures '@' !in d && IsWordChar(d[|d| - 1])
  {
    DomainFromIff(d, 1);
    var k :| 1 <= k < |d| && Segment(d[..k]) && Labels(d[k..]);
    SegmentHasNoAt(d[..k]);
    LabelsHaveNoAt(d[k..]);
    assert d == d[..k] + d[k..];
  }

  /** A valid address has exactly one '@', and ends in a word character. */
  lemma ValidEmailShape(s: string)
    requires ValidEmail(s)
    ensures exists i :: 0 <= i < |s| && s[i] == '@' && forall j :: 0 <= j < |s| && s[j] == '@' ==> j == i
    ensures IsWordChar(s[|s| - 1])
  {
    EmailFromIff(s, 0);
    var i :| 0 <= i < |s| && s[i] == '@' && Segment(s[..i]) && Domain(s[i + 1..]);
    SegmentHasNoAt(s[..i]);
    DomainShape(s[i + 1..]);
    OnlyAt(s, i);
    assert s[|s| - 1] == s[i + 1..][|s| - i - 2];
  }

  /** A plain address is accepted. */
  lemma EmailAccepted()
    ensures ValidEmail("a@x.com")
  {
    var s := "a@x.com";
    assert s[..1] == "a" && Segment("a");
    var d := s[2..];
    assert d == "x.com";
    assert d[..1] == "x" && Segment("x");
    assert d[1..] == ".com";
    assert ".com"[4..] == [];
    assert Labels(".com");
    assert Domain(d);
    EmailFromIff(s, 0);
  }

  /** An address whose domain has no dotted label is refused. */
  lemma EmailWithoutLabelRejected()
    ensures !ValidEmail("a@x")
  {
    var t := "a@x";
    assert t[2..] == "x";
    assert !Domain("x");
    EmailFromIff(t, 0);
  }

  // ---------------------------------------------------------------- the document

  /** A stored user. `password` holds what was saved, i.e. the hash; `watchlist` is the
    * legacy inline list of movie ids. */
  datatype UserDoc = UserDoc(id: nat, username: string, email: string, password: string, watchlist: seq<int>)

  const MinUsername := 3
  const MinPassword := 6

  /** The document as the store keeps it: username trimmed, e-mail lower-cased, empty watchlist. */
  function NewUser(id: nat, username: string, email: string, password: string): (u: UserDoc)
    ensures u.id == id && u.password == password && u.watchlist == []
    ensures Trimmed(u.username) && u.email == Lower(u.email)
  {
    TrimIsTrimmed(username);
    LowerIdempotent(email);
    UserDoc(id, Trim(username), Lower(email), password, [])
  }

  /** The schema validators: required fields, minimum lengths and the e-mail pattern. */
  predicate UserValid(u: UserDoc)
  {
    |u.username| >= MinUsername && ValidEmail(u.email) && |u.password| >= MinPassword
  }

  /** Validation before saving: a failure is a store error (no status code). */
  function ValidateUser(u: UserDoc): (r: Option<Thrown>)
    ensures r.None? <==> UserValid(u)
    ensures r.Some? ==> r.value.statusCode.None?
  {
    if UserValid(u) then None else Some(StoreError("User validation failed"))
  }

  /** The user as `findById` returns it: every field except the password (`select: false`). */
  datatype Profile = Profile(id: nat, username: string, email: string, watchlist: seq<int>)

  function ProfileOf(u: UserDoc): (p: Profile)
    ensures p.id == u.id && p.username == u.username && p.email == u.email && p.watchlist == u.watchlist
  {
    Profile(u.id, u.username, u.email, u.watchlist)
  }
}
