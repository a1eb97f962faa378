/** The slug loop against its declarative form. */
module Slugs {
  import opened Text
  import opened ObjectKeys

  predicate Dangling(words: seq<string>, pieces: seq<string>) {
    |words| > 0 && |pieces| > 0 && pieces[|pieces| - 1] == ""
  }

  /** What the builder holds after the safe characters `safe`: the words so far, and a dash if a
      separator has been seen since the last word. */
  predicate Built(safe: string, builder: string, lastDash: bool) {
    var pieces := Split(safe, Separator);
    var words := NonEmpties(pieces);
    && lastDash == Dangling(words, pieces)
    && builder == if lastDash then Join(words, "-") + "-" else Join(words, "-")
  }

  lemma {:induction false} SplitSnoc(s: string, c: char)
    ensures var p := Split(s, Separator);
            Split(s + [c], Separator)
            == if Separator(c) then p + [""] else p[..|p| - 1] + [p[|p| - 1] + [c]]
  {
    assert (s + [c])[..|s|] == s;
  }

  lemma {:induction false} NonEmptiesSnoc(parts: seq<string>, part: string)
    ensures NonEmpties(parts + [part]) == if part == "" then NonEmpties(parts) else NonEmpties(parts) + [part]
  {
    assert (parts + [part])[..|parts|] == parts;
  }

  lemma {:induction false} JoinNotEmpty(words: seq<string>)
    requires forall i | 0 <= i < |words| :: words[i] != ""
    ensures Join(words, "-") == "" <==> |words| == 0
  {
    if |words| > 0 { JoinEnds(words, "-"); }
  }

  lemma {:induction false} BuiltSeparator(safe: string, c: char, builder: string, lastDash: bool)
    requires Built(safe, builder, lastDash) && Separator(c)
    ensures if !lastDash && |builder| > 0 then Built(safe + [c], builder + "-", true)
            else Built(safe + [c], builder, lastDash)
  {
    hide Split, NonEmpties, Join;
    var pieces := Split(safe, Separator);
    SplitSnoc(safe, c);
    NonEmptiesSnoc(pieces, "");
    JoinNotEmpty(NonEmpties(pieces));
  }

  lemma {:induction false} BuiltWord(safe: string, c: char, builder: string, lastDash: bool)
    requires Built(safe, builder, lastDash) && !Separator(c)
    ensures Built(safe + [c], builder + [c], false)
  {
    hide Split, NonEmpties, Join;
    var pieces := Split(safe, Separator);
    var front, last := pieces[..|pieces| - 1], pieces[|pieces| - 1];
    assert pieces == front + [last];
    SplitSnoc(safe, c);
    NonEmptiesSnoc(front, last);
    NonEmptiesSnoc(front, last + [c]);
    JoinExtended(NonEmpties(front), last, c);
    var now := front + [last + [c]];
    assert Split(safe + [c], Separator) == now;
    assert now[|now| - 1] == last + [c] && !Dangling(NonEmpties(now), now);
  }

  /** Writing one more character of the last piece. */
  lemma {:induction false} JoinExtended(words: seq<string>, last: string, c: char)
    ensures var before := if last == "" then words else words + [last];
            Join(words + [last + [c]], "-")
            == Join(before, "-") + (if last == "" && |words| > 0 then "-" else "") + [c]
  {
    hide Join;
    JoinSnoc(words, last + [c], "-");
    if last == "" {
      assert last + [c] == [c];
      if |words| == 0 { assert Join(words, "-") == "" by { JoinOfNone(); } }
    } else {
      JoinSnoc(words, last, "-");
      assert Join(words, "-") + "-" + (last + [c]) == Join(words, "-") + "-" + last + [c];
    }
  }

  lemma {:induction false} JoinOfNone()
    ensures Join([], "-") == ""
  {
  }

  lemma {:induction false} WordsFree(safe: string)
    ensures AllFree(Words(safe), Separator)
    ensures forall i | 0 <= i < |Words(safe)| :: Words(safe)[i] != ""
  {
    SplitFree(safe, Separator);
    NonEmptiesKeep(Split(safe, Separator), p => Free(p, Separator));
  }

  lemma {:induction false} NonEmptiesKeep(parts: seq<string>, ok: string -> bool)
    requires forall i | 0 <= i < |parts| :: ok(parts[i])
    ensures forall i | 0 <= i < |NonEmpties(parts)| :: ok(NonEmpties(parts)[i])
  {
    if |parts| > 0 {
      NonEmptiesKeep(parts[..|parts| - 1], ok);
    }
  }

  lemma {:induction false} NonEmptiesAll(parts: seq<string>)
    requires forall i | 0 <= i < |parts| :: parts[i] != ""
    ensures NonEmpties(parts) == parts
  {
    if |parts| > 0 {
      NonEmptiesAll(parts[..|parts| - 1]);
      assert parts == parts[..|parts| - 1] + [parts[|parts| - 1]];
    }
  }

  /** Trimming dashes takes off just the dash left by trailing separators. */
  lemma {:induction false} TrimBuilder(safe: string, builder: string, lastDash: bool)
    requires Built(safe, builder, lastDash)
    ensures Trim(builder, IsDash()) == Join(Words(safe), "-")
  {
    var words := Words(safe);
    WordsFree(safe);
    JoinNotEmpty(words);
    if |words| > 0 {
      var j := Join(words, "-");
      JoinEnds(words, "-");
      assert Free(words[0], Separator) && Free(words[|words| - 1], Separator);
      if lastDash {
        assert builder[..|builder| - 1] == j;
        assert TrimLeft(builder, IsDash()) == builder;
        assert TrimRight(builder, IsDash()) == TrimRight(j, IsDash());
      }
    }
  }

  lemma {:induction false} BuiltNothing(u: Unicode, input: string)
    ensures Safe(u, input[..0]) == "" && Built("", "", false)
  {
    assert input[..0] == "";
    assert Split("", Separator) == [""] && [""][..0] == [];
    assert NonEmpties([""]) == [];
  }

  lemma {:induction false} SafeSnoc(u: Unicode, input: string, i: nat)
    requires i < |input|
    ensures Safe(u, input[..i + 1])
         == if IsSafe(u)(input[i]) then Safe(u, input[..i]) + [input[i]] else Safe(u, input[..i])
  {
    FilterSnoc(input[..i], input[i], IsSafe(u));
    assert input[..i + 1] == input[..i] + [input[i]];
  }

  /** The loop over the runes of the lower-cased input. */
  method BuildSlug(u: Unicode, input: string) returns (builder: string, lastDash: bool)
    requires Lawful(u)
    ensures Built(Safe(u, input), builder, lastDash)
  {
    hide Built, Safe;
    builder := "";
    lastDash := false;
    BuiltNothing(u, input);
    for i := 0 to |input|
      invariant Built(Safe(u, input[..i]), builder, lastDash)
    {
      var r := input[i];
      SafeSnoc(u, input, i);
      if u.letter(r) || u.digit(r) {
        BuiltWord(Safe(u, input[..i]), r, builder, lastDash);
        builder := builder + [r];
        lastDash := false;
      } else if r == ' ' || r == '-' || r == '_' || r == '.' {
        BuiltSeparator(Safe(u, input[..i]), r, builder, lastDash);
        if !lastDash && |builder| > 0 {
          builder := builder + "-";
          lastDash := true;
        }
      }
    }
    assert input[..|input|] == input;
  }

  method SlugifyName(u: Unicode, value: string, fallback: string) returns (slug: string)
    requires Lawful(u)
    ensures slug == Slug(u, value, fallback)
  {
    hide Built, Safe, Join, Words, Trim;
    var input := Trim(value, u.space);
    if input == "" {
      input := fallback;
    }
    input := ToLower(u, input);
    var builder, lastDash := BuildSlug(u, input);
    TrimBuilder(Safe(u, input), builder, lastDash);
    WordsFree(Safe(u, input));
    JoinNotEmpty(Words(Safe(u, input)));
    slug := Trim(builder, IsDash());
    if slug == "" {
      slug := SanitizePathToken(u, fallback);
    }
    if slug == "" {
      slug := "tenant";
    }
  }

  // ---- What the words of a slug are ----

  /** The letters and digits of a text. */
  function Letters(u: Unicode, s: string): string {
    if |s| == 0 then ""
    else
      var front, c := Letters(u, s[..|s| - 1]), s[|s| - 1];
      if u.letter(c) || u.digit(c) then front + [c] else front
  }

  /** A space, dash, underscore or dot separates words. */
  lemma {:induction false} WordsAround(u: Unicode, a: string, c: char, b: string)
    requires c == ' ' || c == '-' || c == '_' || c == '.'
    ensures Words(Safe(u, a + [c] + b)) == Words(Safe(u, a)) + Words(Safe(u, b))
  {
    hide Split, Filter;
    FilterAppend(a + [c], b, IsSafe(u));
    FilterSnoc(a, c, IsSafe(u));
    assert Safe(u, a + [c] + b) == Safe(u, a) + [c] + Safe(u, b);
    SplitAround(Safe(u, a), c, Safe(u, b));
    NonEmptiesAppend(Split(Safe(u, a), Separator), Split(Safe(u, b), Separator));
  }

  lemma {:induction false} SplitAround(s: string, c: char, t: string)
    requires Separator(c)
    ensures Split(s + [c] + t, Separator) == Split(s, Separator) + Split(t, Separator)
  {
    hide Split;
    if |t| == 0 {
      assert s + [c] + t == s + [c];
      SplitSnoc(s, c);
      SplitWhole("", Separator);
    } else {
      var n := |t| - 1;
      SplitAround(s, c, t[..n]);
      assert s + [c] + t == s + [c] + t[..n] + [t[n]] && t == t[..n] + [t[n]];
      SplitSnoc(s + [c] + t[..n], t[n]);
      SplitSnoc(t[..n], t[n]);
    }
  }

  lemma {:induction false} NonEmptiesAppend(a: seq<string>, b: seq<string>)
    ensures NonEmpties(a + b) == NonEmpties(a) + NonEmpties(b)
  {
    if |b| == 0 {
      assert a + b == a;
    } else {
      assert (a + b)[..|a + b| - 1] == a + b[..|b| - 1];
      NonEmptiesAppend(a, b[..|b| - 1]);
    }
  }

  /** Text without these four characters is at most one word, made of its letters and digits. */
  lemma {:induction false} WordsWithin(u: Unicode, s: string)
    requires Lawful(u)
    requires forall i | 0 <= i < |s| :: s[i] != ' ' && s[i] != '-' && s[i] != '_' && s[i] != '.'
    ensures Words(Safe(u, s)) == if Letters(u, s) == "" then [] else [Letters(u, s)]
  {
    SafeIsLetters(u, s);
    var w := Letters(u, s);
    SplitWhole(w, Separator);
    assert [w][..0] == [];
    assert NonEmpties([]) == [];
  }

  lemma {:induction false} SafeIsLetters(u: Unicode, s: string)
    requires Lawful(u)
    requires forall i | 0 <= i < |s| :: s[i] != ' ' && s[i] != '-' && s[i] != '_' && s[i] != '.'
    ensures Safe(u, s) == Letters(u, s) && Free(Letters(u, s), Separator)
  {
    if |s| > 0 {
      SafeIsLetters(u, s[..|s| - 1]);
    }
  }

  /** The words come from the lower-cased value without white space around it, or from the
      lower-cased fallback when nothing else is left of the value, and one dash goes between them. */
  lemma {:induction false} SlugIs(u: Unicode, head: string, value: string, tail: string, fallback: string)
    requires All(head, u.space) && All(tail, u.space)
    requires value != "" ==> !u.space(value[0]) && !u.space(value[|value| - 1])
    ensures var input := SlugInput(u, head + value + tail, fallback);
            var source := if value == "" then fallback else value;
            && |input| == |source|
            && (forall i | 0 <= i < |source| :: input[i] == u.lower(source[i]))
            && Slug(u, head + value + tail, fallback)
               == if Words(Safe(u, input)) == [] then SanitizePathToken(u, fallback)
                  else Join(Words(Safe(u, input)), "-")
  {
    hide Trim, Words, Safe;
    if value == "" {
      TrimAll(head + value + tail, u.space);
    } else {
      TrimAround(head, value, tail, u.space);
    }
  }

  lemma {:induction false} TrimAll(s: string, cut: char -> bool)
    requires All(s, cut)
    ensures Trim(s, cut) == ""
  {
    assert s == s + "";
    TrimLeftPrepend(s, "", cut);
  }

  // ---- What slugs look like ----

  /** Characters of a slug made of words: lower-case letters and digits, or a dash. */
  predicate SlugChar(u: Unicode, c: char) {
    c == '-' || (Word(u, c) && u.lower(c) == c)
  }

  function SlugLetter(u: Unicode): char -> bool {
    c => SlugChar(u, c)
  }

  function Lowered(u: Unicode): char -> bool {
    c => u.lower(c) == c
  }

  /** A safe, lower-case character that is no separator is a slug character. */
  function LoweredSafe(u: Unicode): char -> bool {
    c => IsSafe(u)(c) && u.lower(c) == c
  }

  lemma {:induction false} SplitChars(s: string, sep: char -> bool, ok: char -> bool)
    requires All(s, ok)
    ensures forall i | 0 <= i < |Split(s, sep)| :: All(Split(s, sep)[i], ok)
  {
    if |s| > 0 {
      SplitChars(s[..|s| - 1], sep, ok);
    }
  }

  lemma {:induction false} InputLowered(u: Unicode, value: string, fallback: string)
    requires Lawful(u)
    ensures All(SlugInput(u, value, fallback), Lowered(u))
  {
  }

  lemma {:induction false} WordChars(u: Unicode, value: string, fallback: string)
    requires Lawful(u)
    ensures forall i | 0 <= i < |SlugWords(u, value, fallback)| ::
              SlugWords(u, value, fallback)[i] != "" && All(SlugWords(u, value, fallback)[i], SlugLetter(u))
  {
    var input := SlugInput(u, value, fallback);
    var safe := Safe(u, input);
    InputLowered(u, value, fallback);
    FilterChars(input, IsSafe(u), Lowered(u));
    SplitChars(safe, Separator, LoweredSafe(u));
    SplitFree(safe, Separator);
    var pieces := Split(safe, Separator);
    forall i | 0 <= i < |pieces| ensures All(pieces[i], SlugLetter(u)) {
      assert All(pieces[i], LoweredSafe(u)) && Free(pieces[i], Separator);
    }
    NonEmptiesKeep(pieces, p => All(p, SlugLetter(u)));
  }

  /** Lower-case letters, digits and dashes, with no dash at either end. */
  predicate IsSlug(u: Unicode, s: string) {
    s != "" && s[0] != '-' && s[|s| - 1] != '-' && All(s, SlugLetter(u))
  }

  lemma {:induction false} SlugChars(u: Unicode, value: string, fallback: string)
    requires Lawful(u) && |SlugWords(u, value, fallback)| > 0
    ensures IsSlug(u, Join(SlugWords(u, value, fallback), "-"))
  {
    hide Join, Split, NonEmpties, Filter;
    var words := SlugWords(u, value, fallback);
    WordChars(u, value, fallback);
    WordsFree(Safe(u, SlugInput(u, value, fallback)));
    JoinChars(words, "-", SlugLetter(u));
    JoinEnds(words, "-");
    assert Free(words[0], Separator) && Free(words[|words| - 1], Separator);
  }

  /** For all inputs the slug is non-empty and free of slashes and backslashes. */
  lemma {:induction false} SlugIsSafe(u: Unicode, value: string, fallback: string)
    requires Lawful(u)
    ensures Slug(u, value, fallback) != "" && Free(Slug(u, value, fallback), AnySlash)
  {
    hide Join, SlugWords, SanitizePathToken;
    var slug := Slug(u, value, fallback);
    if |SlugWords(u, value, fallback)| > 0 {
      SlugChars(u, value, fallback);
      forall i | 0 <= i < |slug| ensures !AnySlash(slug[i]) {
        assert SlugLetter(u)(slug[i]);
      }
    } else {
      PathTokenChars(u, fallback, _ => true);
    }
  }

  lemma {:induction false} SlugOfSlug(u: Unicode, s: string, other: string)
    requires Lawful(u) && IsSlug(u, s)
    ensures SlugWords(u, s, other) == Words(s)
  {
    assert SlugLetter(u)(s[0]) && SlugLetter(u)(s[|s| - 1]);
    TrimNothing(s, u.space);
    assert ToLower(u, s) == s by {
      assert forall i | 0 <= i < |s| :: SlugLetter(u)(s[i]);
    }
    forall i | 0 <= i < |s| ensures IsSafe(u)(s[i]) {
      assert SlugLetter(u)(s[i]);
    }
    FilterNothing(s, IsSafe(u));
  }

  /** A slug made of words is its own slug, whatever the fallback. */
  lemma {:induction false} SlugIdempotent(u: Unicode, value: string, fallback: string, other: string)
    requires Lawful(u) && |SlugWords(u, value, fallback)| > 0
    ensures Slug(u, Slug(u, value, fallback), other) == Slug(u, value, fallback)
  {
    var safe := Safe(u, SlugInput(u, value, fallback));
    var words := Words(safe);
    SlugChars(u, value, fallback);
    SlugOfSlug(u, Join(words, "-"), other);
    WordsFree(safe);
    assert ['-'] == "-";
    SplitJoin(words, '-', Separator);
    NonEmptiesAll(words);
  }
}
