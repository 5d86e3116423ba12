/** Input validation of the request path (lib/sanitize.ts): pure functions
    that return the cleaned value or the error the source throws. */
module Sanitize {
  import opened Wrappers
  import opened JsString

  /** The errors thrown by the sanitizers, one per `throw` site. */
  datatype SanitizeError =
    | InvalidUserId
    | UserIdTooLong
    | InvalidCharacters
    | InvalidNumber
    | BelowMinimum(min: int)
    | AboveMaximum(max: int)
    | InvalidDataType

  /** The `message` of the thrown `Error`. */
  function Message(e: SanitizeError): string {
    match e
    case InvalidUserId => "Invalid user ID"
    case UserIdTooLong => "User ID too long"
    case InvalidCharacters => "Invalid characters in user ID"
    case InvalidNumber => "Invalid number"
    case BelowMinimum(min) => "Value must be at least " + IntToDecimal(min)
    case AboveMaximum(max) => "Value must be at most " + IntToDecimal(max)
    case InvalidDataType => "Invalid data type. Must be one of: ott, social, media"
  }

  const MaxUserIdLength := 100

  /** The character class `[a-zA-Z0-9_-]`. */
  predicate IsIdChar(c: char) {
    ('a' <= c <= 'z') || ('A' <= c <= 'Z') || ('0' <= c <= '9') || c == '_' || c == '-'
  }

  /** `/^[a-zA-Z0-9_-]+$/.test(s)` (no `m` flag, so `$` is the end of input). */
  predicate IsIdentifier(s: string) {
    |s| >= 1 && forall i :: 0 <= i < |s| ==> IsIdChar(s[i])
  }

  /** A user id the sanitizer may return: `[A-Za-z0-9_-]{1,100}`. */
  predicate IsValidUserId(s: string) {
    IsIdentifier(s) && |s| <= MaxUserIdLength
  }

  predicate IsSeparator(c: char) {
    c == '/' || c == '\\'
  }

  predicate NoDotPair(s: string) {
    forall i :: 0 <= i < |s| - 1 ==> !(s[i] == '.' && s[i + 1] == '.')
  }

  /** `s.replace(/\.\./g, '')`: matches are found left to right without
      overlap, so a run of k dots keeps k mod 2 of them. */
  function StripDotPairs(s: string): (r: string)
    ensures |r| <= |s|
    ensures NoDotPair(r)
    ensures s != [] && s[0] != '.' ==> r != [] && r[0] == s[0]
  {
    if s == [] then []
    else
      var pair := |s| >= 2 && s[0] == '.' && s[1] == '.';
      var rest := StripDotPairs(s[if pair then 2 else 1..]);
      if pair then rest else [s[0]] + rest
  }

  /** Text without dots passes through dot-pair removal unchanged. */
  lemma {:induction false} StripDotPairsKeepsText(a: string, b: string)
    requires '.' !in a
    ensures StripDotPairs(a + b) == a + StripDotPairs(b)
  {
    if a != [] {
      assert (a + b)[0] == a[0] && (a + b)[1..] == a[1..] + b;
      StripDotPairsKeepsText(a[1..], b);
      assert [a[0]] + a[1..] == a;
    } else {
      assert a + b == b;
    }
  }

  /** A leading `..` is removed as one match. */
  lemma StripDotPairsDropsPair(b: string)
    ensures StripDotPairs(".." + b) == StripDotPairs(b)
  {
    assert (".." + b)[2..] == b;
  }

  /** A dot not followed by another dot is kept. */
  lemma StripDotPairsKeepsLoneDot(b: string)
    requires b == [] || b[0] != '.'
    ensures StripDotPairs("." + b) == "." + StripDotPairs(b)
  {
    assert ("." + b)[1..] == b;
  }

  /** `s.replace(/[\/\\]/g, '')`: every `/` and `\` removed, the rest kept in order. */
  function RemoveSeparators(s: string): (r: string)
    ensures |r| <= |s|
    ensures forall i :: 0 <= i < |r| ==> !IsSeparator(r[i])
  {
    if s == [] then []
    else if IsSeparator(s[0]) then RemoveSeparators(s[1..])
    else [s[0]] + RemoveSeparators(s[1..])
  }

  /** The string the checks of `sanitizeUserId` run on. */
  function Clean(s: string): (r: string)
    ensures |r| <= |s|
    ensures forall i :: 0 <= i < |r| ==> !IsSeparator(r[i])
  {
    RemoveSeparators(StripDotPairs(s))
  }

  /** `sanitizeUserId`: reject the empty string, strip `..`, `/` and `\`, then
      check the length cap and the character class on what is left. */
  function SanitizeUserId(userId: string): (r: Result<string, SanitizeError>)
    ensures userId == [] ==> r == Failure(InvalidUserId)
    ensures r.Success? <==> userId != [] && IsValidUserId(Clean(userId))
    ensures r.Success? ==> r.value == Clean(userId) && IsValidUserId(r.value)
    ensures r.Success? ==> forall i :: 0 <= i < |r.value| ==> r.value[i] != '.' && !IsSeparator(r.value[i])
    ensures r.Failure? && userId != [] ==>
      r.error == (if |Clean(userId)| > MaxUserIdLength then UserIdTooLong else InvalidCharacters)
  {
    if userId == [] then Failure(InvalidUserId)
    else
      var cleaned := Clean(userId);
      if |cleaned| > MaxUserIdLength then Failure(UserIdTooLong)
      else if !IsIdentifier(cleaned) then Failure(InvalidCharacters)
      else Success(cleaned)
  }

  lemma {:induction false} StripDotPairsWithoutDots(s: string)
    requires forall i :: 0 <= i < |s| ==> s[i] != '.'
    ensures StripDotPairs(s) == s
  {
    if s != [] {
      StripDotPairsWithoutDots(s[1..]);
    }
  }

  lemma {:induction false} RemoveSeparatorsWithout(s: string)
    requires forall i :: 0 <= i < |s| ==> !IsSeparator(s[i])
    ensures RemoveSeparators(s) == s
  {
    if s != [] {
      RemoveSeparatorsWithout(s[1..]);
    }
  }

  lemma {:induction false} RemoveSeparatorsAppend(s: string, t: string)
    ensures RemoveSeparators(s + t) == RemoveSeparators(s) + RemoveSeparators(t)
  {
    if s == [] {
      assert s + t == t;
    } else {
      assert (s + t)[1..] == s[1..] + t;
      RemoveSeparatorsAppend(s[1..], t);
    }
  }

  lemma {:induction false} RemoveSeparatorsOfSeparators(s: string)
    requires forall i :: 0 <= i < |s| ==> IsSeparator(s[i])
    ensures RemoveSeparators(s) == []
  {
    if s != [] {
      RemoveSeparatorsOfSeparators(s[1..]);
    }
  }

  /** A string that already has the form `[A-Za-z0-9_-]{1,100}` is returned unchanged. */
  lemma SanitizeUserIdIdentity(u: string)
    requires IsValidUserId(u)
    ensures SanitizeUserId(u) == Success(u)
  {
    StripDotPairsWithoutDots(u);
    RemoveSeparatorsWithout(u);
  }

  /** Sanitizing an accepted id a second time changes nothing. */
  lemma SanitizeUserIdIdempotent(s: string)
    requires SanitizeUserId(s).Success?
    ensures SanitizeUserId(SanitizeUserId(s).value) == SanitizeUserId(s)
  {
    SanitizeUserIdIdentity(SanitizeUserId(s).value);
  }

  /** Stripping comes before the length cap: separators appended to a valid id
      are removed before the cap applies, so the input may be any length. */
  lemma SeparatorsDoNotCountTowardLength(u: string, pad: string)
    requires IsValidUserId(u)
    requires forall i :: 0 <= i < |pad| ==> IsSeparator(pad[i])
    ensures SanitizeUserId(u + pad) == Success(u)
  {
    assert forall i :: 0 <= i < |u + pad| ==> (u + pad)[i] != '.' by {
      forall i | 0 <= i < |u + pad| ensures (u + pad)[i] != '.' {
        if i >= |u| { assert (u + pad)[i] == pad[i - |u|]; }
      }
    }
    StripDotPairsWithoutDots(u + pad);
    RemoveSeparatorsAppend(u, pad);
    RemoveSeparatorsWithout(u);
    RemoveSeparatorsOfSeparators(pad);
    assert u + [] == u;
  }

  /** A 201-character input accepted because 101 of its characters are separators. */
  lemma LongInputAccepted()
    ensures |"a" + seq(200, _ => '/')| > MaxUserIdLength
    ensures SanitizeUserId("a" + seq(200, _ => '/')) == Success("a")
  {
    SeparatorsDoNotCountTowardLength("a", seq(200, _ => '/'));
  }

  /** The checks see the string after both replacements: `./.` loses its `/`,
      becomes `..` and is rejected for its characters. */
  lemma SlashBetweenDotsRejected()
    ensures Clean("./.") == ".."
    ensures SanitizeUserId("./.") == Failure(InvalidCharacters)
  {
    assert "./."[1..] == "/." && "/."[1..] == "." && "."[1..] == [];
    assert StripDotPairs("./.") == "./.";
    assert RemoveSeparators(".") == ".";
    assert RemoveSeparators("/.") == ".";
    assert RemoveSeparators("./.") == "..";
    assert !IsIdChar("..."[0]);
  }

  /** `k` leading parent-directory segments, `../../...`. */
  function ParentSegments(k: nat): string {
    if k == 0 then [] else "../" + ParentSegments(k - 1)
  }

  lemma {:induction false} StripParentSegments(k: nat, p: string)
    requires forall i :: 0 <= i < |p| ==> p[i] != '.'
    ensures StripDotPairs(ParentSegments(k) + p) == seq(k, _ => '/') + p
  {
    if k == 0 {
      assert ParentSegments(k) + p == p;
      StripDotPairsWithoutDots(p);
    } else {
      var rest := ParentSegments(k - 1) + p;
      var x := "/" + rest;
      assert ParentSegments(k) + p == ".." + x;
      StripDotPairsDropsPair(x);
      StripDotPairsKeepsText("/", rest);
      StripParentSegments(k - 1, p);
      var slashes := seq(k - 1, _ => '/');
      assert seq(k, _ => '/') == "/" + slashes;
      assert "/" + (slashes + p) == ("/" + slashes) + p;
    }
  }

  /** Leading `../` segments are dropped rather than refused: what is left of
      the path decides, once its separators are gone. */
  lemma ParentSegmentsFlattened(k: nat, p: string)
    requires p != [] && forall i :: 0 <= i < |p| ==> p[i] != '.'
    ensures Clean(ParentSegments(k) + p) == RemoveSeparators(p)
    ensures SanitizeUserId(ParentSegments(k) + p) ==
      if IsValidUserId(RemoveSeparators(p)) then Success(RemoveSeparators(p))
      else SanitizeUserId(p)
  {
    StripParentSegments(k, p);
    RemoveSeparatorsAppend(seq(k, _ => '/'), p);
    RemoveSeparatorsOfSeparators(seq(k, _ => '/'));
    StripDotPairsWithoutDots(p);
  }

  /** One separator between two separator-free parts disappears. */
  lemma RemoveSeparatorJoin(a: string, sep: char, b: string)
    requires IsSeparator(sep)
    requires forall i :: 0 <= i < |a| ==> !IsSeparator(a[i])
    requires forall i :: 0 <= i < |b| ==> !IsSeparator(b[i])
    ensures RemoveSeparators(a + [sep] + b) == a + b
  {
    var single := [sep];
    assert RemoveSeparators(single) == [] by {
      assert single[1..] == [];
    }
    RemoveSeparatorsAppend(a, single);
    RemoveSeparatorsAppend(a + single, b);
    RemoveSeparatorsWithout(a);
    RemoveSeparatorsWithout(b);
    assert a + [] == a;
  }

  /** Parent-directory segments in front of a two-segment path are dropped and
      the two segments are joined: `../../a/b` is accepted as `ab`. */
  lemma TraversalPathJoined(k: nat, a: string, b: string)
    requires IsIdentifier(a) && IsIdentifier(b) && |a| + |b| <= MaxUserIdLength
    ensures SanitizeUserId(ParentSegments(k) + (a + "/" + b)) == Success(a + b)
  {
    var p := a + "/" + b;
    assert p == a + ['/'] + b;
    assert p[..|a|] == a && p[|a|] == '/' && p[|a| + 1..] == b;
    assert forall i :: 0 <= i < |p| ==> p[i] != '.' by {
      forall i | 0 <= i < |p| ensures p[i] != '.' {
        if i < |a| { assert p[i] == a[i]; } else if i > |a| { assert p[i] == b[i - |a| - 1]; }
      }
    }
    RemoveSeparatorJoin(a, '/', b);
    assert IsValidUserId(a + b) by {
      forall i | 0 <= i < |a + b| ensures IsIdChar((a + b)[i]) {
        if i < |a| { assert (a + b)[i] == a[i]; } else { assert (a + b)[i] == b[i - |a|]; }
      }
    }
    ParentSegmentsFlattened(k, p);
  }

  /** The path `../../etc/passwd` is accepted as `etcpasswd`. The path is a
      parameter pinned by `requires` so that the literal is not unfolded
      character by character at every use of it. */
  lemma TraversalPathFlattened(path: string)
    requires path == "../../etc/passwd"
    ensures SanitizeUserId(path) == Success("etcpasswd")
  {
    var a, b := "etc", "passwd";
    assert path == ParentSegments(2) + (a + "/" + b);
    assert IsIdentifier(a) && IsIdentifier(b) && a + b == "etcpasswd";
    TraversalPathJoined(2, a, b);
  }

  /** The value handed to `sanitizeNumber`: a string (parsed with `parseInt`),
      an integer `Number` (used as it is) or `NaN`. An integer whose magnitude
      is at least `DoubleOverflow` stands for the infinity it rounds to. */
  datatype NumberInput = Text(text: string) | Integer(n: int) | NotANumber

  /** 2^1024 - 2^970: the smallest magnitude that rounds to an infinite double
      (the largest finite double plus half a unit in its last place). */
  const DoubleOverflow: int := 179769313486231580793728971405303415079934132710037826936173778980444968292764750946649017977587207096330286416692887910946555547851940402630657488671505820681908902000708383676273854845817711531764475730270069855571366959622842914819860834936475292719074168444365510704342711559699508093042880177904174497792

  /** `isFinite` of the double nearest to `v`. */
  predicate IsFinite(v: int) {
    -DoubleOverflow < v < DoubleOverflow
  }

  /** What `num` is before the checks, as an exact integer; `None` stands for NaN. */
  function ToNumber(value: NumberInput): Option<int> {
    match value
    case Text(s) => ParseInt10(s)
    case Integer(n) => Some(n)
    case NotANumber => None
  }

  /** `sanitizeNumber(value, {min, max})`: NaN and the infinities are refused,
      then the minimum is checked, then the maximum. */
  function SanitizeNumber(value: NumberInput, min: Option<int>, max: Option<int>): (r: Result<int, SanitizeError>)
    ensures r.Success? ==> ToNumber(value) == Some(r.value) && IsFinite(r.value)
    ensures r.Success? ==> (min.Some? ==> min.value <= r.value) && (max.Some? ==> r.value <= max.value)
    ensures r == Failure(InvalidNumber) <==> ToNumber(value).None? || !IsFinite(ToNumber(value).value)
    ensures ToNumber(value).Some? && IsFinite(ToNumber(value).value) && min.Some? && ToNumber(value).value < min.value ==>
      r == Failure(BelowMinimum(min.value))
    ensures (ToNumber(value).Some? && IsFinite(ToNumber(value).value) && (min.None? || min.value <= ToNumber(value).value)
             && max.Some? && max.value < ToNumber(value).value) ==> r == Failure(AboveMaximum(max.value))
    ensures r.Failure? && r.error.AboveMaximum? ==> max.Some? && r.error.max == max.value && (min.None? || min.value <= ToNumber(value).value)
    ensures (ToNumber(value).Some? && IsFinite(ToNumber(value).value) && (min.None? || min.value <= ToNumber(value).value)
             && (max.None? || ToNumber(value).value <= max.value)) ==> r == Success(ToNumber(value).value)
  {
    var num := ToNumber(value);
    if num.None? || !IsFinite(num.value) then Failure(InvalidNumber)
    else if min.Some? && num.value < min.value then Failure(BelowMinimum(min.value))
    else if max.Some? && num.value > max.value then Failure(AboveMaximum(max.value))
    else Success(num.value)
  }

  /** A decimal string too long for a finite double is "Invalid number", even
      when it is within the given bounds. */
  lemma OverflowingDecimalRejected(n: int, min: Option<int>, max: Option<int>)
    requires n <= -DoubleOverflow || DoubleOverflow <= n
    ensures SanitizeNumber(Text(IntToDecimal(n)), min, max) == Failure(InvalidNumber)
  {
    ToNumberOfDecimal(n);
  }

  /** The decimal text of an integer is sanitized exactly like the integer. */
  lemma SanitizeNumberOfDecimal(n: int, min: Option<int>, max: Option<int>)
    ensures SanitizeNumber(Text(IntToDecimal(n)), min, max) == SanitizeNumber(Integer(n), min, max)
  {
    ToNumberOfDecimal(n);
  }

  lemma ToNumberOfDecimal(n: int)
    ensures ToNumber(Text(IntToDecimal(n))) == Some(n)
  {
    ParseIntOfToString(n);
  }

  /** A string with no digit where `parseInt` looks for one (after the blanks
      and one optional sign) is "Invalid number". */
  lemma SanitizeNumberRejectsNonNumeric(ws: string, rest: string, min: Option<int>, max: Option<int>)
    requires AllWhiteSpace(ws)
    requires rest == [] || (!IsWhiteSpace(rest[0]) && !IsDigit(rest[0]))
    requires rest != [] && (rest[0] == '-' || rest[0] == '+') ==> |rest| == 1 || !IsDigit(rest[1])
    ensures SanitizeNumber(Text(ws + rest), min, max) == Failure(InvalidNumber)
  {
    if rest != [] && (rest[0] == '-' || rest[0] == '+') {
      assert ws + rest == ws + [rest[0]] + rest[1..];
      ParseIntSignWithoutDigits(ws, rest[0], rest[1..]);
    } else {
      ParseIntWithoutDigits(ws, rest);
    }
  }

  const AllowedDataTypes: seq<string> := ["ott", "social", "media"]

  /** `sanitizeDataType`: the allow-list check. */
  function SanitizeDataType(dataType: string): (r: Result<string, SanitizeError>)
    ensures r.Success? <==> dataType == "ott" || dataType == "social" || dataType == "media"
    ensures r.Success? ==> r.value == dataType
    ensures r.Failure? ==> r.error == InvalidDataType
  {
    if dataType in AllowedDataTypes then Success(dataType) else Failure(InvalidDataType)
  }

  /** No `<` is followed, anywhere later, by a `>`: the regex `<[^>]*>` has no match. */
  predicate NoTag(s: string) {
    forall i, j :: 0 <= i < j < |s| && s[i] == '<' ==> s[j] != '>'
  }

  /** What follows the first `>` of `t`. */
  function AfterClose(t: string): (r: string)
    requires '>' in t
    ensures |r| < |t| && r == t[|t| - |r|..]
    ensures t[|t| - |r| - 1] == '>' && '>' !in t[..|t| - |r| - 1]
  {
    if t[0] == '>' then t[1..] else AfterClose(t[1..])
  }

  /** `s.replace(/<[^>]*>/g, '')`: each `<` that has a `>` after it is removed
      together with everything up to the first such `>`; a `<` without one is kept. */
  function StripTags(s: string): (r: string)
    ensures |r| <= |s|
    ensures forall i :: 0 <= i < |r| ==> r[i] in s
    ensures NoTag(r)
    decreases |s|
  {
    if s == [] then []
    else if s[0] == '<' && '>' in s[1..] then
      var rest := AfterClose(s[1..]);
      assert forall c :: c in rest ==> c in s;
      StripTags(rest)
    else [s[0]] + StripTags(s[1..])
  }

  /** The first `>` after a `>`-free prefix closes right there. */
  lemma {:induction false} AfterCloseOf(t: string, b: string)
    requires '>' !in t
    ensures AfterClose(t + ">" + b) == b
  {
    if t == [] {
      assert t + ">" + b == ">" + b;
      assert (">" + b)[1..] == b;
    } else {
      assert (t + ">" + b)[0] == t[0];
      assert (t + ">" + b)[1..] == t[1..] + ">" + b;
      AfterCloseOf(t[1..], b);
    }
  }

  /** A character other than `<` is kept. */
  lemma StripTagsCons(c: char, s: string)
    requires c != '<'
    ensures StripTags([c] + s) == [c] + StripTags(s)
  {
    assert ([c] + s)[0] == c && ([c] + s)[1..] == s;
  }

  /** Text without `<` passes through tag removal unchanged. */
  lemma {:induction false} StripTagsKeepsText(a: string, b: string)
    requires '<' !in a
    ensures StripTags(a + b) == a + StripTags(b)
  {
    if a != [] {
      assert a + b == [a[0]] + (a[1..] + b);
      assert a[0] != '<' && '<' !in a[1..];
      StripTagsCons(a[0], a[1..] + b);
      StripTagsKeepsText(a[1..], b);
      assert a == [a[0]] + a[1..];
    } else {
      assert a + b == b;
    }
  }

  /** A tag `<...>` is removed whole, and the text after it is processed on. */
  lemma StripTagsDropsTag(t: string, b: string)
    requires '>' !in t
    ensures StripTags("<" + t + ">" + b) == StripTags(b)
  {
    var s := "<" + t + ">" + b;
    assert s[0] == '<';
    assert s[1..] == t + ">" + b;
    assert '>' in s[1..] by {
      assert s[1..][|t|] == '>';
    }
    AfterCloseOf(t, b);
  }

  /** Removing tags from a string that has none changes nothing. */
  lemma {:induction false} StripTagsWithoutTags(s: string)
    requires NoTag(s)
    ensures StripTags(s) == s
  {
    if s != [] {
      if s[0] == '<' {
        assert '>' !in s[1..] by {
          forall j | 0 <= j < |s[1..]| ensures s[1..][j] != '>' {
            assert s[1..][j] == s[j + 1];
          }
        }
      }
      assert NoTag(s[1..]) by {
        forall i, j | 0 <= i < j < |s[1..]| && s[1..][i] == '<' ensures s[1..][j] != '>' {
          assert s[1..][i] == s[i + 1] && s[1..][j] == s[j + 1];
        }
      }
      StripTagsWithoutTags(s[1..]);
    }
  }

  /** Removing tags is idempotent. */
  lemma StripTagsIdempotent(s: string)
    ensures StripTags(StripTags(s)) == StripTags(s)
  {
    StripTagsWithoutTags(StripTags(s));
  }

  /** `str.substring(0, maxLength)`: the end is clamped to `[0, |str|]`. */
  function Prefix(s: string, maxLength: int): (r: string)
    ensures |r| <= |s| && r == s[..|r|]
    ensures |r| == if maxLength < 0 then 0 else if maxLength < |s| then maxLength else |s|
  {
    if maxLength < 0 then [] else if maxLength < |s| then s[..maxLength] else s
  }

  const DefaultMaxLength := 1000

  /** `sanitizeString(str, maxLength = 1000)`: `''` for the empty string,
      otherwise trimmed, cut to `maxLength` and stripped of tags. */
  function SanitizeString(str: string, maxLength: int := DefaultMaxLength): (r: string)
    ensures str == [] ==> r == []
    ensures |r| <= |str|
    ensures |r| <= if maxLength < 0 then 0 else maxLength
    ensures NoTag(r)
    ensures forall i :: 0 <= i < |r| ==> r[i] in str
  {
    if str == [] then []
    else
      var cut := Prefix(Trim(str), maxLength);
      TrimmedPrefixChars(str, maxLength);
      StripTags(cut)
  }

  /** Every character of the trimmed, cut string comes from the input. */
  lemma TrimmedPrefixChars(str: string, maxLength: int)
    ensures forall c :: c in Prefix(Trim(str), maxLength) ==> c in str
  {
    var cut := Prefix(Trim(str), maxLength);
    var t := Trim(str);
    var i := |str| - |TrimStart(str)|;
    assert t == str[i..i + |t|];
    forall c | c in cut ensures c in str {
      var k :| 0 <= k < |cut| && cut[k] == c;
      assert cut[k] == t[k] == str[i + k];
    }
  }

  /** A string without `<` is only trimmed and cut. */
  lemma SanitizeStringKeepsPlainText(str: string, maxLength: int)
    requires str != [] && '<' !in str
    ensures SanitizeString(str, maxLength) == Prefix(Trim(str), maxLength)
  {
    var cut := Prefix(Trim(str), maxLength);
    var t := Trim(str);
    var i := |str| - |TrimStart(str)|;
    assert t == str[i..i + |t|];
    assert '<' !in cut by {
      forall k | 0 <= k < |cut| ensures cut[k] != '<' {
        assert cut[k] == t[k] == str[i + k];
      }
    }
    StripTagsKeepsText(cut, []);
    assert cut + [] == cut;
  }

  /** A string that is already trimmed, within the length and free of tags is
      returned unchanged. */
  lemma SanitizeStringIdentity(str: string, maxLength: int)
    requires NoTag(str) && Trim(str) == str && |str| <= maxLength
    ensures SanitizeString(str, maxLength) == str
  {
    if str != [] {
      assert Prefix(Trim(str), maxLength) == str;
      StripTagsWithoutTags(str);
    }
  }

  /** A string that is already trimmed and within the length is only stripped of tags. */
  lemma SanitizeStringOfTrimmed(str: string, maxLength: int)
    requires str != [] && Trim(str) == str && |str| <= maxLength
    ensures SanitizeString(str, maxLength) == StripTags(str)
  {
    assert Prefix(Trim(str), maxLength) == str;
  }

  /** A tag after plain text is removed whole: what remains is that text, then
      the rest with its own tags removed. */
  lemma StripTagsAfterText(a: string, t: string, b: string)
    requires '<' !in a && '>' !in t
    ensures StripTags(a + "<" + t + ">" + b) == a + StripTags(b)
  {
    var tag := "<" + t + ">" + b;
    assert a + "<" + t + ">" + b == a + tag;
    StripTagsKeepsText(a, tag);
    StripTagsDropsTag(t, b);
  }

  /** In a string that neither starts nor ends with white space and is within
      the length, a tag after plain text is removed whole. */
  lemma SanitizeStringDropsTag(str: string, a: string, t: string, b: string, maxLength: int)
    requires str == a + "<" + t + ">" + b && '<' !in a && '>' !in t
    requires !IsWhiteSpace(str[0]) && !IsWhiteSpace(str[|str| - 1]) && |str| <= maxLength
    ensures SanitizeString(str, maxLength) == a + StripTags(b)
  {
    TrimOfUnpadded(str);
    SanitizeStringOfTrimmed(str, maxLength);
    StripTagsAfterText(a, t, b);
  }

  /** The sanitized string is a fixed point of tag removal. */
  lemma SanitizedStringHasNoTags(str: string, maxLength: int)
    ensures StripTags(SanitizeString(str, maxLength)) == SanitizeString(str, maxLength)
  {
    StripTagsWithoutTags(SanitizeString(str, maxLength));
  }
}
