/**
 * The user helpers of src/lib/auth.ts: turning the auth service's user
 * into the application's, and the initials, display name and activity
 * flag derived from either. The metadata fields read here are taken to
 * hold strings or be absent.
 */
module Auth {
  import opened JsStrings
  import Seqs

  /** The `user_metadata` fields the helpers read. */
  datatype Metadata = Metadata(fullName: Option<string>, name: Option<string>, avatarUrl: Option<string>, role: Option<string>)

  /** The auth service's `User`, as far as the helpers read it. */
  datatype SupabaseUser = SupabaseUser(
    id: string,
    email: Option<string>,
    metadata: Metadata,
    createdAt: string,
    lastSignInAt: Option<string>,
    emailConfirmedAt: Option<string>)

  /** `AuthUser`. */
  datatype AuthUser = AuthUser(
    id: string,
    email: string,
    name: Option<string>,
    avatar: Option<string>,
    role: string,
    createdAt: string,
    lastSignIn: Option<string>)

  /** `a || b` on an optional string: `a` unless it is missing or ''. */
  function OrElse(a: Option<string>, b: Option<string>): (r: Option<string>)
    ensures a.Some? && a.value != "" ==> r == a
    ensures a.None? || a == Some("") ==> r == b
  {
    if a.Some? && a.value != "" then a else b
  }

  /** A string that is there and not ''. */
  predicate Present(a: Option<string>) {
    a.Some? && a.value != ""
  }

  /** `email.split('@')[0]`: what comes before the first '@'. */
  function LocalPart(email: string): (r: string)
    ensures '@' !in r
    ensures StartsWith(email, r)
  {
    var parts := Split(email, '@');
    LocalPartPrefix(parts, '@');
    parts[0]
  }

  lemma LocalPartPrefix(parts: seq<string>, c: char)
    requires |parts| >= 1
    ensures StartsWith(Join(parts, c), parts[0])
  {
    if |parts| > 1 {
      assert Join(parts, c) == parts[0] + ([c] + Join(parts[1..], c));
    }
  }

  /** `user.email?.split('@')[0]`. */
  function EmailLocal(email: Option<string>): Option<string> {
    if email.Some? then Some(LocalPart(email.value)) else None
  }

  /**
   * `mapSupabaseUser`: the email or ''; as name the full name, else the
   * name, else the email's local part; as role the metadata role or 'user'.
   */
  function MapSupabaseUser(user: SupabaseUser): (r: AuthUser)
    ensures r.id == user.id && r.createdAt == user.createdAt && r.lastSignIn == user.lastSignInAt
    ensures r.email == (if user.email.Some? then user.email.value else "")
    ensures Present(user.metadata.fullName) ==> r.name == user.metadata.fullName
    ensures !Present(user.metadata.fullName) && Present(user.metadata.name) ==> r.name == user.metadata.name
    ensures !Present(user.metadata.fullName) && !Present(user.metadata.name) ==> r.name == EmailLocal(user.email)
    ensures r.avatar == user.metadata.avatarUrl
    ensures r.role != "" && (Present(user.metadata.role) ==> r.role == user.metadata.role.value)
    ensures !Present(user.metadata.role) ==> r.role == "user"
  {
    var m := user.metadata;
    AuthUser(
      user.id,
      if user.email.Some? then user.email.value else "",
      OrElse(OrElse(m.fullName, m.name), EmailLocal(user.email)),
      m.avatarUrl,
      OrElse(m.role, Some("user")).value,
      user.createdAt,
      user.lastSignInAt)
  }

  /** `AuthUser | User`: the helpers below accept either. */
  datatype Subject = FromAuth(authUser: AuthUser) | FromService(serviceUser: SupabaseUser)

  /** The name the initials and the display name start from. */
  function NameOf(s: Subject): (r: Option<string>)
    ensures s.FromAuth? ==> r.Some?
    ensures s.FromAuth? && !Present(s.authUser.name) ==> r == Some(LocalPart(s.authUser.email))
    ensures s.FromService? ==> (r.None? <==>
      !Present(s.serviceUser.metadata.fullName) && !Present(s.serviceUser.metadata.name) && s.serviceUser.email.None?)
  {
    match s
    case FromService(u) => OrElse(OrElse(u.metadata.fullName, u.metadata.name), EmailLocal(u.email))
    case FromAuth(u) => OrElse(u.name, Some(LocalPart(u.email)))
  }

  /** `words[i][0]` inside a template literal: the first character, or 'undefined' for an empty word. */
  function FirstChar(w: string): (r: string)
    ensures w != "" ==> r == [w[0]]
    ensures w == "" ==> r == "undefined"
  {
    if w == "" then "undefined" else [w[0]]
  }

  /**
   * The initials of a non-empty name as written: with two or more
   * space-separated words the first characters of the first two,
   * otherwise the first two characters, upper-cased.
   */
  function NameInitialsAsWritten(name: string): (r: string)
    requires name != ""
    ensures |Split(name, ' ')| < 2 ==> |r| == if |name| < 2 then |name| else 2
    ensures |Split(name, ' ')| >= 2 && Split(name, ' ')[0] != "" && Split(name, ' ')[1] != "" ==> |r| == 2
  {
    var words := Split(name, ' ');
    if |words| >= 2 then Upper(FirstChar(words[0]) + FirstChar(words[1]))
    else Upper(name[..if |name| < 2 then |name| else 2])
  }

  /** Two space-free words and a single space, then anything from a space on: the initials of the two words. */
  lemma TwoWordInitialsAsWritten(w0: string, w1: string, rest: string)
    requires w0 != "" && w1 != "" && ' ' !in w0 && ' ' !in w1
    requires rest == [] || rest[0] == ' '
    ensures NameInitialsAsWritten(w0 + [' '] + w1 + rest) == Upper([w0[0], w1[0]])
  {
    assert w0 + [' '] + w1 + rest == w0 + [' '] + (w1 + rest);
    SplitCons(w0, w1 + rest, ' ');
    SplitHead(w1, rest, ' ');
    assert [w0[0]] + [w1[0]] == [w0[0], w1[0]];
  }

  /** A name without a space: its first one or two characters. */
  lemma OneWordInitialsAsWritten(w: string)
    requires w != "" && ' ' !in w
    ensures NameInitialsAsWritten(w) == Upper(w[..if |w| < 2 then |w| else 2])
  {
    assert IndexOfChar(w, ' ') == -1;
  }

  /** `getUserInitials` as written: '??' without a name. */
  function UserInitialsAsWritten(s: Subject): (r: string)
    ensures !Present(NameOf(s)) ==> r == "??"
    ensures Present(NameOf(s)) ==> r == NameInitialsAsWritten(NameOf(s).value)
  {
    var name := NameOf(s);
    if !Present(name) then "??" else NameInitialsAsWritten(name.value)
  }

  /**
   * A double space leaves an empty second word, whose `[0]` is undefined:
   * 'a  b' gets the initials of 'a' followed by 'UNDEFINED' ('A  B' gives 'AUNDEFINED').
   */
  lemma DoubleSpaceInitials(a: char, b: char)
    requires a != ' ' && b != ' '
    ensures NameInitialsAsWritten([a, ' ', ' ', b]) == Upper([a] + "undefined")
    ensures |NameInitialsAsWritten([a, ' ', ' ', b])| == 10
  {
    var parts: seq<string> := [[a], [], [b]];
    assert parts[1..] == [[], [b]] && parts[1..][1..] == [[b]];
    assert Join(parts[1..][1..], ' ') == [b];
    assert Join(parts[1..], ' ') == [' ', b];
    assert Join(parts, ' ') == [a, ' ', ' ', b];
    SplitJoin(parts, ' ');
  }

  /** The words of a name: the non-empty parts of `split(' ')`. */
  function Words(name: string): (r: seq<string>)
    ensures forall i :: 0 <= i < |r| ==> r[i] != "" && ' ' !in r[i]
  {
    Seqs.Filter(Split(name, ' '), NonEmpty)
  }

  predicate NonEmpty(w: string) { w != "" }

  /**
   * The initials of a non-empty name as evidently intended: the first
   * characters of the first two words, the first two characters of a
   * lone word, and '??' for a name of spaces only. A name of one word is
   * that word, so this differs from the written rule only where spaces
   * are doubled or surround the name.
   */
  function NameInitials(name: string): (r: string)
    requires name != ""
    ensures 1 <= |r| <= 2
  {
    var words := Words(name);
    if |words| >= 2 then Upper([words[0][0], words[1][0]])
    else if |words| == 1 then Upper(words[0][..if |words[0]| < 2 then |words[0]| else 2])
    else "??"
  }

  /** Nothing but spaces. */
  predicate Spaces(s: string) {
    forall i :: 0 <= i < |s| ==> s[i] == ' '
  }

  /** Leading spaces give no words. */
  lemma {:induction false} WordsAfterSpaces(sp: string, t: string)
    requires Spaces(sp)
    ensures Words(sp + t) == Words(t)
  {
    if sp == [] {
      assert sp + t == t;
    } else {
      assert sp + t == "" + [' '] + (sp[1..] + t);
      SplitCons("", sp[1..] + t, ' ');
      var xs := Split(sp[1..] + t, ' ');
      assert ([""] + xs)[0] == "" && ([""] + xs)[1..] == xs;
      WordsAfterSpaces(sp[1..], t);
    }
  }

  /** A space-free word followed by a space is the first word. */
  lemma WordsCons(w: string, t: string)
    requires w != "" && ' ' !in w
    ensures Words(w + [' '] + t) == [w] + Words(t)
  {
    SplitCons(w, t, ' ');
    var xs := Split(t, ' ');
    assert ([w] + xs)[0] == w && ([w] + xs)[1..] == xs;
  }

  /** A space-free word, then nothing or a space and anything: the word comes first. */
  lemma WordsHead(w: string, rest: string)
    requires w != "" && ' ' !in w
    requires rest == [] || rest[0] == ' '
    ensures |Words(w + rest)| >= 1 && Words(w + rest)[0] == w
  {
    if rest == [] {
      assert w + rest == w;
      assert IndexOfChar(w, ' ') == -1;
      assert Split(w, ' ') == [w];
      assert [w][1..] == [];
    } else {
      assert w + rest == w + [' '] + rest[1..];
      WordsCons(w, rest[1..]);
    }
  }

  /**
   * Corrected, two words with any run of spaces between them and any
   * spaces before, then anything from a space on: the initials of the two
   * words.
   */
  lemma TwoWordInitials(pad: string, w0: string, sp: string, w1: string, rest: string)
    requires Spaces(pad) && sp != [] && Spaces(sp)
    requires w0 != "" && w1 != "" && ' ' !in w0 && ' ' !in w1
    requires rest == [] || rest[0] == ' '
    ensures NameInitials(pad + w0 + sp + w1 + rest) == Upper([w0[0], w1[0]])
  {
    var name := pad + w0 + sp + w1 + rest;
    assert sp == [' '] + sp[1..];
    assert name == pad + (w0 + [' '] + (sp[1..] + (w1 + rest)));
    WordsAfterSpaces(pad, w0 + [' '] + (sp[1..] + (w1 + rest)));
    WordsCons(w0, sp[1..] + (w1 + rest));
    WordsAfterSpaces(sp[1..], w1 + rest);
    WordsHead(w1, rest);
  }

  /** A space-free word and spaces after it: the one word. */
  lemma WordsOfWordThenSpaces(w: string, trail: string)
    requires w != "" && ' ' !in w && Spaces(trail)
    ensures Words(w + trail) == [w]
  {
    if trail == [] {
      assert w + trail == w;
      assert IndexOfChar(w, ' ') == -1;
      assert Split(w, ' ') == [w];
      assert [w][1..] == [];
    } else {
      assert w + trail == w + [' '] + (trail[1..] + "");
      WordsCons(w, trail[1..] + "");
      WordsAfterSpaces(trail[1..], "");
      assert Split("", ' ') == [""];
    }
  }

  /** Corrected, one word with any spaces around it: its first one or two characters. */
  lemma OneWordInitials(pad: string, w: string, trail: string)
    requires Spaces(pad) && Spaces(trail)
    requires w != "" && ' ' !in w
    ensures NameInitials(pad + w + trail) == Upper(w[..if |w| < 2 then |w| else 2])
  {
    assert pad + w + trail == pad + (w + trail);
    WordsAfterSpaces(pad, w + trail);
    WordsOfWordThenSpaces(w, trail);
  }

  /** Corrected, a name of spaces only has no initials: '??'. */
  lemma BlankNameInitials(sp: string)
    requires sp != "" && Spaces(sp)
    ensures NameInitials(sp) == "??"
  {
    WordsAfterSpaces(sp, "");
    assert sp + "" == sp;
    assert Split("", ' ') == [""];
  }

  /** `getUserInitials`: '??' without a name, otherwise one or two upper-cased letters of it. */
  function UserInitials(s: Subject): (r: string)
    ensures !Present(NameOf(s)) ==> r == "??"
    ensures Present(NameOf(s)) ==> r == NameInitials(NameOf(s).value)
    ensures 1 <= |r| <= 2
  {
    var name := NameOf(s);
    if !Present(name) then "??" else NameInitials(name.value)
  }

  /** Corrected, a double space between two words gives their two initials. */
  lemma DoubleSpaceInitialsCorrected(a: char, b: char)
    requires a != ' ' && b != ' '
    ensures NameInitials([a, ' ', ' ', b]) == Upper([a, b])
  {
    DoubleSpaceWords(a, b);
  }

  /** 'a  b' splits at each space into 'a', '' and 'b', and the empty word is dropped. */
  lemma DoubleSpaceWords(a: char, b: char)
    requires a != ' ' && b != ' '
    ensures Words([a, ' ', ' ', b]) == [[a], [b]]
  {
    var parts: seq<string> := [[a], [], [b]];
    DoubleSpaceJoin(a, b);
    SplitJoin(parts, ' ');
    assert Seqs.Filter(parts, NonEmpty) == [[a], [b]] by {
      assert Seqs.Filter(parts[1..][1..], NonEmpty) == [[b]] by {
        assert parts[1..][1..][1..] == [];
      }
    }
  }

  lemma DoubleSpaceJoin(a: char, b: char)
    ensures Join([[a], [], [b]], ' ') == [a, ' ', ' ', b]
  {
    var parts: seq<string> := [[a], [], [b]];
    assert parts[1..] == [[], [b]] && parts[1..][1..] == [[b]];
    assert Join(parts[1..][1..], ' ') == [b];
    assert Join(parts[1..], ' ') == [' ', b];
  }

  /** On a name whose words are separated by single spaces, the corrected initials are the written ones. */
  lemma InitialsAgreeOnSingleSpaces(name: string)
    requires name != ""
    requires forall i :: 0 <= i < |Split(name, ' ')| ==> Split(name, ' ')[i] != ""
    ensures NameInitials(name) == NameInitialsAsWritten(name)
  {
    var parts := Split(name, ' ');
    Seqs.FilterAll(parts, NonEmpty);
  }

  /** `getUserDisplayName`: the name, or 'Usuário' without one; never empty. */
  function UserDisplayName(s: Subject): (r: string)
    ensures Present(NameOf(s)) ==> r == NameOf(s).value
    ensures !Present(NameOf(s)) ==> r == "Usuário"
    ensures r != ""
  {
    OrElse(NameOf(s), Some("Usuário")).value
  }

  /** A user without initials is displayed as 'Usuário'. */
  lemma NoInitialsMeansDefaultName(s: Subject)
    requires !Present(NameOf(s))
    ensures UserInitials(s) == "??" && UserDisplayName(s) == "Usuário"
  {
  }

  /**
   * Mapping a service user to the application's changes neither its
   * initials nor its display name.
   */
  lemma MappingKeepsNames(u: SupabaseUser)
    ensures Present(NameOf(FromAuth(MapSupabaseUser(u)))) <==> Present(NameOf(FromService(u)))
    ensures Present(NameOf(FromService(u))) ==> NameOf(FromAuth(MapSupabaseUser(u))) == NameOf(FromService(u))
    ensures UserInitials(FromAuth(MapSupabaseUser(u))) == UserInitials(FromService(u))
    ensures UserDisplayName(FromAuth(MapSupabaseUser(u))) == UserDisplayName(FromService(u))
  {
    var a := MapSupabaseUser(u);
    if u.email.None? {
      assert a.email == "";
      assert Split("", '@') == [""];
    }
  }

  /** `isEmailConfirmed`: `!!user.email_confirmed_at`. */
  predicate IsEmailConfirmed(user: SupabaseUser) {
    Present(user.emailConfirmedAt)
  }

  /** `isUserActive`: a user is active exactly when the email confirmation time is set and not ''. */
  function IsUserActive(user: SupabaseUser): (r: bool)
    ensures r <==> user.emailConfirmedAt.Some? && user.emailConfirmedAt.value != ""
  {
    IsEmailConfirmed(user)
  }
}
