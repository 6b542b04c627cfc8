/** The email value object: the address trimmed and lower-cased, accepted only
    when its length is within bounds and it matches the address pattern. */
module Email {
  import opened Common
  import opened Text
  import opened Exceptions

  const MAX_LENGTH: nat := 254
  const MIN_LENGTH: nat := 5

  /** The characters allowed before the `@`. */
  predicate IsLocalChar(c: char) {
    IsAlnum(c) || c in ".!#$%&'*+/=?^_`{|}~-"
  }

  /** A domain label: 1 to 63 letters, digits or hyphens, starting and ending
      with a letter or digit. */
  predicate IsLabel(l: string) {
    && 1 <= |l| <= 63
    && IsAlnum(l[0]) && IsAlnum(l[|l| - 1])
    && forall i :: 0 <= i < |l| ==> IsAlnum(l[i]) || l[i] == '-'
  }

  predicate IsLocalPart(l: string) {
    |l| >= 1 && forall i :: 0 <= i < |l| ==> IsLocalChar(l[i])
  }

  /** The address pattern: one `@`, a non-empty local part of local characters
      before it, and dot-separated labels after it. */
  predicate MatchesPattern(s: string) {
    var parts := Split(s, '@');
    && |parts| == 2
    && IsLocalPart(parts[0])
    && var labels := Split(parts[1], '.');
       forall j :: 0 <= j < |labels| ==> IsLabel(labels[j])
  }

  lemma LabelHasNoSeparators(l: string)
    requires IsLabel(l)
    ensures '@' !in l && '.' !in l
  {
    assert forall i :: 0 <= i < |l| ==> l[i] != '@' && l[i] != '.';
  }

  lemma LocalPartHasNoAt(l: string)
    requires IsLocalPart(l)
    ensures '@' !in l
  {
    assert forall i :: 0 <= i < |l| ==> l[i] != '@';
  }

  /** Every address built by the pattern's grammar matches it. */
  lemma GrammarMatches(local: string, labels: seq<string>)
    requires IsLocalPart(local)
    requires |labels| >= 1 && forall j :: 0 <= j < |labels| ==> IsLabel(labels[j])
    ensures MatchesPattern(local + "@" + Join(labels, '.'))
  {
    var domain := Join(labels, '.');
    forall j | 0 <= j < |labels| ensures '@' !in labels[j] && '.' !in labels[j] {
      LabelHasNoSeparators(labels[j]);
    }
    JoinExcludes(labels, '.', '@');
    LocalPartHasNoAt(local);
    var pair := [local, domain];
    assert Join(pair, '@') == local + "@" + domain by {
      assert pair[1..] == [domain];
    }
    SplitJoin(pair, '@');
    SplitJoin(labels, '.');
  }

  /** Every matching address is built by the grammar from its own pieces. */
  lemma MatchDecomposes(s: string)
    requires MatchesPattern(s)
    ensures var parts := Split(s, '@');
            && s == parts[0] + "@" + Join(Split(parts[1], '.'), '.')
            && |Split(parts[1], '.')| >= 1
  {
    var parts := Split(s, '@');
    assert parts[1..] == [parts[1]];
  }

  datatype EmailVO = EmailVO(value: string)

  /** `email.trim().toLowerCase()`. */
  function Normalize(s: string): string {
    Lower(Trim(s))
  }

  /** What every EmailVO holds: a normalized, pattern-matching address within
      the length bounds. */
  predicate Valid(e: EmailVO) {
    && Normalize(e.value) == e.value
    && MIN_LENGTH <= |e.value| <= MAX_LENGTH
    && MatchesPattern(e.value)
  }

  /** `EmailVO.create`: an absent or blank address, one shorter than 5 or longer
      than 254 characters once normalized, or one that does not match the
      pattern raises InvalidEmailException carrying the address as given. */
  function Create(email: Option<string>): (r: Result<EmailVO, Exception>)
    ensures r.Ok? <==> && email.Some?
                       && MIN_LENGTH <= |Normalize(email.value)| <= MAX_LENGTH
                       && MatchesPattern(Normalize(email.value))
    ensures r.Ok? ==> r.value.value == Normalize(email.value)
    ensures r.Err? ==> r.error == InvalidEmailException(email, None)
  {
    var trimmed := if email.Some? then Some(Normalize(email.value)) else None;
    if !Truthy(trimmed) then Err(InvalidEmailException(email, None))
    else if |trimmed.value| < MIN_LENGTH then Err(InvalidEmailException(email, None))
    else if |trimmed.value| > MAX_LENGTH then Err(InvalidEmailException(email, None))
    else if !MatchesPattern(trimmed.value) then Err(InvalidEmailException(email, None))
    else Ok(EmailVO(trimmed.value))
  }

  /** Every EmailVO `create` returns holds the value-object invariant. */
  lemma CreateValid(email: Option<string>)
    requires Create(email).Ok?
    ensures Valid(Create(email).value)
  {
    var v := Normalize(email.value);
    NormalizeIdempotent(email.value);
    assert Normalize(v) == v;
    assert Create(Some(v)).Ok?;
  }

  /** `EmailVO.isValid`: whether `create` would succeed. */
  function IsValid(email: Option<string>): (b: bool)
    ensures b <==> Create(email).Ok?
  {
    Create(email).Ok?
  }

  /** Normalizing twice is normalizing once. */
  lemma NormalizeIdempotent(s: string)
    ensures Normalize(Normalize(s)) == Normalize(s)
  {
    var t := Trim(s);
    TrimOfTrimmed(Lower(t));
    LowerIdempotent(t);
  }

  /** Creating from an EmailVO's own value gives it back. */
  lemma CreateIdempotent(email: Option<string>)
    requires Create(email).Ok?
    ensures Create(Some(Create(email).value.value)) == Create(email)
  {
    NormalizeIdempotent(email.value);
  }

  /** Whitespace around the address and the case of its letters do not change
      whether it is accepted nor the value it becomes. */
  lemma CreateIgnoresPaddingAndCase(pre: string, s: string, post: string)
    requires forall i :: 0 <= i < |pre| ==> IsWhitespace(pre[i])
    requires forall i :: 0 <= i < |post| ==> IsWhitespace(post[i])
    ensures Create(Some(pre + s + post)).Ok? == Create(Some(s)).Ok?
    ensures Create(Some(Lower(s))).Ok? == Create(Some(s)).Ok?
    ensures Create(Some(s)).Ok? ==> && Create(Some(pre + s + post)).value == Create(Some(s)).value
                                     && Create(Some(Lower(s))).value == Create(Some(s)).value
  {
    TrimPadded(pre, s, post);
    TrimLower(s);
    LowerIdempotent(Trim(s));
  }

  /** `localPart`: the text before the first `@`. */
  function LocalPart(e: EmailVO): (l: string)
    ensures |l| <= |e.value| && l == e.value[..|l|] && '@' !in l
    ensures |l| < |e.value| ==> e.value[|l|] == '@'
  {
    Split(e.value, '@')[0]
  }

  /** `domain`: the text between the first and second `@`, or undefined when
      there is no `@`. */
  function Domain(e: EmailVO): (d: Option<string>)
    ensures d.None? <==> '@' !in e.value
  {
    var parts := Split(e.value, '@');
    if |parts| >= 2 then Some(parts[1]) else None
  }

  /** A valid address is its local part, `@`, and its domain, and the domain is
      a sequence of labels. */
  lemma PartsOfValid(e: EmailVO)
    requires Valid(e)
    ensures Domain(e).Some?
    ensures e.value == LocalPart(e) + "@" + Domain(e).value
    ensures IsLocalPart(LocalPart(e))
    ensures forall j :: 0 <= j < |Split(Domain(e).value, '.')| ==> IsLabel(Split(Domain(e).value, '.')[j])
  {
    MatchDecomposes(e.value);
    var parts := Split(e.value, '@');
    assert parts[1..] == [parts[1]];
  }

  /** The local part of an address the pattern accepts is a non-empty run of
      local characters with nothing to trim, so it survives as a display name
      unchanged. */
  lemma LocalPartOfValid(e: EmailVO)
    requires MatchesPattern(e.value)
    ensures IsLocalPart(LocalPart(e)) && Trim(LocalPart(e)) == LocalPart(e)
  {
    var l := LocalPart(e);
    LocalCharIsNotWhitespace(l[0]);
    LocalCharIsNotWhitespace(l[|l| - 1]);
    TrimOfTrimmed(l);
  }

  lemma LocalCharIsNotWhitespace(c: char)
    requires IsLocalChar(c)
    ensures !IsWhitespace(c)
  {
  }

  /** Lower-casing neither introduces nor removes an `@`. */
  lemma LowerKeepsAt(s: string)
    ensures '@' in Lower(s) <==> '@' in s
  {
    if '@' in s {
      var i :| 0 <= i < |s| && s[i] == '@';
      assert Lower(s)[i] == '@';
    }
    if '@' in Lower(s) {
      var i :| 0 <= i < |s| && Lower(s)[i] == '@';
      assert s[i] == '@';
    }
  }

  /** An address without `@` is rejected. */
  lemma RejectsWithoutAt(s: string)
    requires '@' !in s
    ensures Create(Some(s)).Err?
  {
    var t := Trim(s);
    var a := |s| - |TrimStart(s)|;
    assert forall i :: 0 <= i < |t| ==> t[i] == s[a + i];
    LowerKeepsAt(t);
  }

  /** An address whose normalized form starts with `@` has an empty local part
      and is rejected. */
  lemma RejectsEmptyLocalPart(s: string)
    requires |Normalize(s)| > 0 && Normalize(s)[0] == '@'
    ensures Create(Some(s)).Err?
  {
    var parts := Split(Normalize(s), '@');
    assert |parts[0]| == 0;
  }

  lemma LocalPartHasNoWhitespace(l: string, c: char)
    requires IsLocalPart(l) && IsWhitespace(c)
    ensures c !in l
  {
    assert forall i :: 0 <= i < |l| ==> l[i] != c;
  }

  lemma LabelHasNoWhitespace(l: string, c: char)
    requires IsLabel(l) && IsWhitespace(c)
    ensures c !in l
  {
    assert forall i :: 0 <= i < |l| ==> l[i] != c;
  }

  /** A matching address holds only characters of the pattern's ASCII
      alphabet, so none outside the Basic Multilingual Plane. */
  lemma MatchIsInBmp(t: string)
    requires MatchesPattern(t)
    ensures forall i :: 0 <= i < |t| ==> t[i] as int <= 0xFFFF
  {
    forall i | 0 <= i < |t| ensures t[i] as int <= 0xFFFF {
      if t[i] as int > 0xFFFF {
        MatchExcludes(t, t[i]);
      }
    }
  }

  /** A matching address holds no character outside the pattern's alphabet. */
  lemma MatchExcludes(t: string, c: char)
    requires MatchesPattern(t)
    requires !IsLocalChar(c) && !IsAlnum(c) && c != '-' && c != '@' && c != '.'
    ensures c !in t
  {
    MatchDecomposes(t);
    var parts := Split(t, '@');
    var labels := Split(parts[1], '.');
    forall j | 0 <= j < |labels| ensures c !in labels[j] {
      LabelExcludes(labels[j], c);
    }
    JoinExcludes(labels, '.', c);
    LocalPartExcludes(parts[0], c);
    assert t == parts[0] + "@" + Join(labels, '.');
  }

  lemma LabelExcludes(l: string, c: char)
    requires IsLabel(l) && !IsAlnum(c) && c != '-'
    ensures c !in l
  {
    assert forall i :: 0 <= i < |l| ==> l[i] != c;
  }

  lemma LocalPartExcludes(l: string, c: char)
    requires IsLocalPart(l) && !IsLocalChar(c)
    ensures c !in l
  {
    assert forall i :: 0 <= i < |l| ==> l[i] != c;
  }

  /** The bounds `create` checks on `length` count UTF-16 code units; since a
      matching address holds no character that takes two of them, counting
      characters accepts exactly the same addresses. */
  lemma CreateLengthInCodeUnits(email: Option<string>)
    ensures Create(email).Ok? <==> && email.Some?
                                   && MIN_LENGTH <= Utf16Length(Normalize(email.value)) <= MAX_LENGTH
                                   && MatchesPattern(Normalize(email.value))
  {
    if email.Some? && MatchesPattern(Normalize(email.value)) {
      MatchIsInBmp(Normalize(email.value));
    }
  }

  /** An accepted address holds no whitespace anywhere, so a space inside the
      address (not around it) makes it invalid. */
  lemma MatchHasNoWhitespace(t: string, c: char)
    requires MatchesPattern(t) && IsWhitespace(c)
    ensures c !in t
  {
    MatchDecomposes(t);
    var parts := Split(t, '@');
    var labels := Split(parts[1], '.');
    forall j | 0 <= j < |labels| ensures c !in labels[j] {
      LabelHasNoWhitespace(labels[j], c);
    }
    JoinExcludes(labels, '.', c);
    LocalPartHasNoWhitespace(parts[0], c);
    var domain := Join(labels, '.');
    assert t == parts[0] + "@" + domain;
    assert c != '@';
  }

  /** `create` rejects an address with whitespace inside it. */
  lemma RejectsInnerWhitespace(pre: string, c: char, post: string)
    requires IsWhitespace(c)
    requires Trim(pre + [c] + post) == pre + [c] + post
    ensures Create(Some(pre + [c] + post)).Err?
  {
    var s := pre + [c] + post;
    var n := Normalize(s);
    assert Trim(s) == s;
    assert n[|pre|] == c;
    if MatchesPattern(n) {
      MatchHasNoWhitespace(n, c);
    }
  }
}
