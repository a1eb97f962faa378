/** Object keys of stored documents: slugs, safe file names, and the path they form. */
module ObjectKeys {
  import opened Options
  import opened Text

  // ---- Character classes ----

  /** The Unicode tables the code consults. */
  datatype Unicode = Unicode(letter: char -> bool, digit: char -> bool, space: char -> bool, lower: char -> char)

  predicate Word(u: Unicode, c: char) {
    u.letter(c) || u.digit(c)
  }

  predicate Separator(c: char) {
    c == ' ' || c == '-' || c == '_' || c == '.'
  }

  predicate Slash(c: char) {
    c == '/'
  }

  predicate AnySlash(c: char) {
    c == '/' || c == '\\'
  }

  /** What the real tables guarantee: punctuation is neither letter nor digit, letters, digits and
      the dash are not white space, and lower-casing twice changes nothing more. */
  ghost predicate Lawful(u: Unicode) {
    && (forall c :: Separator(c) || AnySlash(c) ==> !Word(u, c))
    && (forall c :: Word(u, c) || c == '-' ==> !u.space(c))
    && (forall c :: u.lower(u.lower(c)) == u.lower(c))
    && u.lower('-') == '-'
  }

  function IsDash(): char -> bool {
    c => c == '-'
  }

  function NoSlash(): char -> bool {
    c => !AnySlash(c)
  }

  const ASCII := Unicode(
    c => 'a' <= c <= 'z' || 'A' <= c <= 'Z',
    c => '0' <= c <= '9',
    c => c == ' ' || '\t' <= c <= '\r',
    c => if 'A' <= c <= 'Z' then (c as int + 32) as char else c)

  lemma {:induction false} AsciiIsLawful()
    ensures Lawful(ASCII)
  {
  }

  // ---- Slugs ----

  function ToLower(u: Unicode, s: string): string {
    seq(|s|, i requires 0 <= i < |s| => u.lower(s[i]))
  }

  /** Letters, digits and separators; anything else is unsafe. */
  function IsSafe(u: Unicode): char -> bool {
    c => Word(u, c) || Separator(c)
  }

  function Safe(u: Unicode, s: string): string {
    Filter(s, IsSafe(u))
  }

  function NonEmpties(parts: seq<string>): (r: seq<string>)
    ensures forall i | 0 <= i < |r| :: r[i] != ""
  {
    if |parts| == 0 then []
    else
      var front := NonEmpties(parts[..|parts| - 1]);
      if parts[|parts| - 1] == "" then front else front + [parts[|parts| - 1]]
  }

  /** The words between runs of separators. */
  function Words(s: string): seq<string> {
    NonEmpties(Split(s, Separator))
  }

  function SlugInput(u: Unicode, value: string, fallback: string): string {
    var trimmed := Trim(value, u.space);
    ToLower(u, if trimmed == "" then fallback else trimmed)
  }

  /** The declarative slug: lower case, drop unsafe characters, one dash between words. */
  function SlugWords(u: Unicode, value: string, fallback: string): seq<string> {
    Words(Safe(u, SlugInput(u, value, fallback)))
  }

  function Slug(u: Unicode, value: string, fallback: string): string {
    var words := SlugWords(u, value, fallback);
    if |words| > 0 then Join(words, "-") else SanitizePathToken(u, fallback)
  }

  // ---- Tokens and file names ----

  /** strings.ReplaceAll(s, "..", ""): left to right, without overlap. */
  function DropDotDot(s: string): string {
    if |s| < 2 then s
    else if s[0] == '.' && s[1] == '.' then DropDotDot(s[2..])
    else [s[0]] + DropDotDot(s[1..])
  }

  function SanitizePathToken(u: Unicode, value: string): (r: string)
    ensures r != ""
  {
    var clean := Filter(DropDotDot(Trim(value, u.space)), NoSlash());
    if clean == "" then "unknown" else clean
  }

  /** The text after the last slash. */
  function AfterLastSlash(s: string): (r: string)
    ensures Free(r, Slash)
  {
    if |s| == 0 || s[|s| - 1] == '/' then "" else AfterLastSlash(s[..|s| - 1]) + [s[|s| - 1]]
  }

  /** filepath.Base with '/' as the separator. */
  function Base(path: string): (r: string)
    ensures r == "/" || Free(r, Slash)
  {
    if path == "" then "."
    else
      var last := AfterLastSlash(TrimRight(path, Slash));
      if last == "" then "/" else last
  }

  function SanitizeFileName(u: Unicode, name: string): string {
    var clean := DropDotDot(Base(Trim(name, u.space)));
    if clean == "." || clean == "/" then "" else clean
  }

  lemma {:induction false} DropChars(s: string, ok: char -> bool)
    requires All(s, ok)
    ensures All(DropDotDot(s), ok)
  {
    if |s| >= 2 {
      if s[0] == '.' && s[1] == '.' { DropChars(s[2..], ok); } else { DropChars(s[1..], ok); }
    }
  }

  /** A token has no slash or backslash, and beyond that only characters of its source. */
  lemma {:induction false} PathTokenChars(u: Unicode, value: string, ok: char -> bool)
    requires All(value, ok)
    ensures Free(SanitizePathToken(u, value), AnySlash)
    ensures All(SanitizePathToken(u, value), ok) || SanitizePathToken(u, value) == "unknown"
  {
    TrimChars(value, u.space, ok);
    DropChars(Trim(value, u.space), ok);
    FilterChars(DropDotDot(Trim(value, u.space)), NoSlash(), ok);
    assert forall i | 0 <= i < |Filter(DropDotDot(Trim(value, u.space)), NoSlash())| ::
        NoSlash()(Filter(DropDotDot(Trim(value, u.space)), NoSlash())[i]);
  }

  predicate HasDotDot(s: string) {
    exists i | 0 <= i < |s| - 1 :: s[i] == '.' && s[i + 1] == '.'
  }

  function Dots(k: nat): (r: string)
    ensures |r| == k && forall i | 0 <= i < k :: r[i] == '.'
  {
    seq(k, i => '.')
  }

  /** One pass shrinks each maximal run of dots to its length modulo two. */
  lemma {:induction false} DotRunShrinks(k: nat, rest: string)
    requires |rest| > 0 ==> rest[0] != '.'
    ensures DropDotDot(Dots(k) + rest) == Dots(k % 2) + DropDotDot(rest)
  {
    if k < 2 {
      LastDot(k, rest);
    } else {
      hide DropDotDot, Dots;
      DropTwo(Dots(k) + rest);
      TailOfDots(k, rest);
      DotRunShrinks(k - 2, rest);
      assert (k - 2) % 2 == k % 2;
    }
  }

  lemma {:induction false} TailOfDots(k: nat, rest: string)
    requires k >= 2
    ensures (Dots(k) + rest)[2..] == Dots(k - 2) + rest
  {
    assert Dots(k)[2..] == Dots(k - 2);
  }

  lemma {:induction false} DropTwo(s: string)
    requires |s| >= 2 && s[0] == '.' && s[1] == '.'
    ensures DropDotDot(s) == DropDotDot(s[2..])
  {
  }

  lemma {:induction false} LastDot(k: nat, rest: string)
    requires k < 2 && (|rest| > 0 ==> rest[0] != '.')
    ensures DropDotDot(Dots(k) + rest) == Dots(k) + DropDotDot(rest)
  {
    var s := Dots(k) + rest;
    if k == 0 {
      assert s == rest && Dots(0) + DropDotDot(rest) == DropDotDot(rest);
    } else {
      assert Dots(1) == ['.'] && s[1..] == rest;
      if |rest| == 0 { assert s == Dots(1) + DropDotDot(rest); }
    }
  }

  lemma {:induction false} NoDotDotLeft(s: string)
    ensures !HasDotDot(DropDotDot(s))
    ensures |s| > 0 && s[0] != '.' ==> |DropDotDot(s)| > 0 && DropDotDot(s)[0] == s[0]
  {
    if |s| >= 2 {
      if s[0] == '.' && s[1] == '.' {
        NoDotDotLeft(s[2..]);
      } else {
        NoDotDotLeft(s[1..]);
        var rest := DropDotDot(s[1..]);
        var all := DropDotDot(s);
        assert all == [s[0]] + rest;
        if s[0] == '.' { assert rest[0] != '.'; }
        forall i | 0 <= i < |all| - 1 ensures !(all[i] == '.' && all[i + 1] == '.') {
          if i > 0 { assert all[i] == rest[i - 1] && all[i + 1] == rest[i]; }
        }
      }
    }
  }

  /** Any other first character stays. */
  lemma {:induction false} OtherCharStays(c: char, s: string)
    requires c != '.'
    ensures DropDotDot([c] + s) == [c] + DropDotDot(s)
  {
    assert ([c] + s)[1..] == s;
  }

  lemma {:induction false} AfterSlash(dir: string, file: string)
    requires Free(file, Slash)
    ensures AfterLastSlash(dir + "/" + file) == file
  {
    var s := dir + "/" + file;
    if |file| > 0 {
      assert s[..|s| - 1] == dir + "/" + file[..|file| - 1];
      AfterSlash(dir, file[..|file| - 1]);
    }
  }

  lemma {:induction false} TrimRightAppend(s: string, tail: string, cut: char -> bool)
    requires All(tail, cut)
    ensures TrimRight(s + tail, cut) == TrimRight(s, cut)
  {
    if |tail| == 0 {
      assert s + tail == s;
    } else {
      assert (s + tail)[..|s + tail| - 1] == s + tail[..|tail| - 1];
      TrimRightAppend(s, tail[..|tail| - 1], cut);
    }
  }

  lemma {:induction false} TrimLeftPrepend(head: string, s: string, cut: char -> bool)
    requires All(head, cut)
    ensures TrimLeft(head + s, cut) == TrimLeft(s, cut)
  {
    if |head| == 0 {
      assert head + s == s;
    } else {
      assert (head + s)[1..] == head[1..] + s;
      TrimLeftPrepend(head[1..], s, cut);
    }
  }

  /** White space around a name does not matter. */
  lemma {:induction false} TrimAround(head: string, s: string, tail: string, cut: char -> bool)
    requires All(head, cut) && All(tail, cut) && s != "" && !cut(s[0]) && !cut(s[|s| - 1])
    ensures Trim(head + s + tail, cut) == s
  {
    assert head + s + tail == head + (s + tail);
    TrimLeftPrepend(head, s + tail, cut);
    assert TrimLeft(s + tail, cut) == s + tail;
    TrimRightAppend(s, tail, cut);
  }

  /** Of a path the file name is what follows the last slash, with white space around the path and
      slashes at its end taken off first, and ".." removed after. */
  lemma {:induction false} FileNameOfPath(u: Unicode, head: string, dir: string, file: string, slashes: string,
                                          tail: string)
    requires All(head, u.space) && All(tail, u.space) && All(slashes, Slash)
    requires file != "" && Free(file, Slash)
    requires var path := dir + "/" + file + slashes; !u.space(path[0]) && !u.space(path[|path| - 1])
    ensures SanitizeFileName(u, head + (dir + "/" + file + slashes) + tail)
         == if DropDotDot(file) == "." then "" else DropDotDot(file)
  {
    hide Trim, DropDotDot, AfterLastSlash;
    var path := dir + "/" + file + slashes;
    TrimAround(head, path, tail, u.space);
    TrimRightAppend(dir + "/" + file, slashes, Slash);
    assert TrimRight(dir + "/" + file, Slash) == dir + "/" + file;
    AfterSlash(dir, file);
    DropChars(file, c => !Slash(c));
    assert DropDotDot(file) != "" ==> !Slash(DropDotDot(file)[0]);
  }

  /** The same without a directory. */
  lemma {:induction false} FileNameAlone(u: Unicode, head: string, file: string, tail: string)
    requires All(head, u.space) && All(tail, u.space)
    requires file != "" && Free(file, Slash) && !u.space(file[0]) && !u.space(file[|file| - 1])
    ensures SanitizeFileName(u, head + file + tail) == if DropDotDot(file) == "." then "" else DropDotDot(file)
  {
    hide Trim, DropDotDot, AfterLastSlash;
    TrimAround(head, file, tail, u.space);
    BaseOfPlain(file);
    DropChars(file, c => !Slash(c));
    assert DropDotDot(file) != "" ==> !Slash(DropDotDot(file)[0]);
  }

  /** A token loses its slashes and backslashes and nothing else. */
  lemma {:induction false} TokenLosesSlashes(a: string, c: char, b: string)
    ensures Filter(a + [c] + b, NoSlash())
         == Filter(a, NoSlash()) + (if c == '/' || c == '\\' then "" else [c]) + Filter(b, NoSlash())
    ensures Filter("", NoSlash()) == ""
  {
    FilterAppend(a + [c], b, NoSlash());
    FilterSnoc(a, c, NoSlash());
  }

  /** A sanitized file name has no slash, no "..", and is not ".". */
  lemma {:induction false} FileNameIsSafe(u: Unicode, name: string)
    ensures var r := SanitizeFileName(u, name);
            !HasDotDot(r) && r != "." && Free(r, Slash)
  {
    var base := Base(Trim(name, u.space));
    NoDotDotLeft(base);
    if base == "/" {
      assert DropDotDot("/") == "/";
    } else {
      DropChars(base, c => !Slash(c));
    }
  }

  predicate OnlySlashes(t: string, lo: nat, hi: nat) {
    forall k | lo <= k < hi && k < |t| :: AnySlash(t[k])
  }

  predicate Bridge(t: string, i: nat, j: nat) {
    i < j < |t| && t[i] == '.' && t[j] == '.' && OnlySlashes(t, i + 1, j)
  }

  predicate Closing(t: string, i: nat) {
    i < |t| && t[i] == '.' && OnlySlashes(t, i + 1, |t|)
  }

  /** Two dots of t have nothing but slashes between them. */
  predicate DotsAcrossSlashes(t: string) {
    exists i, j | 0 <= i < |t| && 0 <= j < |t| :: Bridge(t, i, j)
  }

  /** The last character of t that is not a slash is a dot. */
  predicate DotBeforeSlashes(t: string) {
    exists i | 0 <= i < |t| :: Closing(t, i)
  }

  lemma {:induction false} BridgeSnoc(t: string, c: char, i: nat, j: nat)
    requires i < |t| && j < |t|
    ensures Bridge(t + [c], i, j) <==> Bridge(t, i, j)
  {
    assert forall k | 0 <= k < |t| :: (t + [c])[k] == t[k];
  }

  lemma {:induction false} ClosingSnoc(t: string, c: char, i: nat)
    requires i < |t|
    ensures Bridge(t + [c], i, |t|) <==> c == '.' && Closing(t, i)
    ensures Closing(t + [c], i) <==> AnySlash(c) && Closing(t, i)
  {
    assert forall k | 0 <= k < |t| :: (t + [c])[k] == t[k];
    assert (t + [c])[|t|] == c;
  }

  lemma {:induction false} AcrossSnoc(t: string, c: char)
    ensures DotsAcrossSlashes(t + [c]) <==> DotsAcrossSlashes(t) || (c == '.' && DotBeforeSlashes(t))
  {
    hide Bridge, Closing;
    var g := t + [c];
    forall i, j | 0 <= i < |t| && 0 <= j < |t| ensures Bridge(g, i, j) <==> Bridge(t, i, j) {
      BridgeSnoc(t, c, i, j);
    }
    forall i | 0 <= i < |t| ensures Bridge(g, i, |t|) <==> c == '.' && Closing(t, i) {
      ClosingSnoc(t, c, i);
    }
    forall j | 0 <= j < |g| ensures !Bridge(g, |t|, j) { NoBridgeFromEnd(t, c, j); }
    if i, j :| 0 <= i < |g| && 0 <= j < |g| && Bridge(g, i, j) {
      if j == |t| { assert Closing(t, i); } else { assert Bridge(t, i, j); }
    }
    if i, j :| 0 <= i < |t| && 0 <= j < |t| && Bridge(t, i, j) { assert Bridge(g, i, j); }
    if i :| 0 <= i < |t| && c == '.' && Closing(t, i) { assert Bridge(g, i, |t|); }
  }

  lemma {:induction false} NoBridgeFromEnd(t: string, c: char, j: nat)
    ensures !Bridge(t + [c], |t|, j)
  {
  }

  lemma {:induction false} BeforeSnoc(t: string, c: char)
    ensures DotBeforeSlashes(t + [c]) <==> c == '.' || (AnySlash(c) && DotBeforeSlashes(t))
  {
    var g := t + [c];
    forall i | 0 <= i < |t| ensures Closing(g, i) <==> AnySlash(c) && Closing(t, i) {
      ClosingSnoc(t, c, i);
    }
    assert Closing(g, |t|) <==> c == '.';
    if i :| 0 <= i < |t| && AnySlash(c) && Closing(t, i) { assert Closing(g, i); }
  }

  lemma {:induction false} DotDotSnoc(f: string, c: char)
    ensures HasDotDot(f + [c]) <==> HasDotDot(f) || (|f| > 0 && f[|f| - 1] == '.' && c == '.')
  {
    var g := f + [c];
    if i :| 0 <= i < |f| - 1 && f[i] == '.' && f[i + 1] == '.' {
      assert g[i] == '.' && g[i + 1] == '.';
    }
    if |f| > 0 && f[|f| - 1] == '.' && c == '.' {
      assert g[|f| - 1] == '.' && g[|f| - 1 + 1] == '.';
    }
  }

  predicate EndsInDot(f: string) {
    |f| > 0 && f[|f| - 1] == '.'
  }

  /** Dropping slashes brings two dots together exactly when only slashes lie between them. */
  lemma {:induction false} FilterMeetsDots(t: string)
    ensures HasDotDot(Filter(t, NoSlash())) <==> DotsAcrossSlashes(t)
    ensures EndsInDot(Filter(t, NoSlash())) <==> DotBeforeSlashes(t)
  {
    if |t| > 0 {
      hide Filter, HasDotDot, DotsAcrossSlashes, DotBeforeSlashes;
      var n := |t| - 1;
      FilterMeetsDots(t[..n]);
      AcrossSnoc(t[..n], t[n]);
      BeforeSnoc(t[..n], t[n]);
      FilterSnoc(t[..n], t[n], NoSlash());
      DotDotSnoc(Filter(t[..n], NoSlash()), t[n]);
      assert t == t[..n] + [t[n]];
    }
  }

  /** A path token, unlike a file name, can end up with "..": slashes go after the dots did. It
      does exactly when two dots that survived have nothing but slashes between them. */
  lemma {:induction false} PathTokenDotDotIff(u: Unicode, value: string)
    ensures HasDotDot(SanitizePathToken(u, value)) <==> DotsAcrossSlashes(DropDotDot(Trim(value, u.space)))
  {
    var t := DropDotDot(Trim(value, u.space));
    FilterMeetsDots(t);
    assert !HasDotDot("unknown") by {
      assert forall i | 0 <= i < |"unknown"| :: "unknown"[i] != '.';
    }
  }

  lemma {:induction false} DotSlashDot()
    ensures DropDotDot("./.") == "./." && Filter("./.", NoSlash()) == ".."
  {
    hide SanitizePathToken, Trim;
    var s := "./.";
    assert s[1..] == "/." && "/."[1..] == "." && DropDotDot(".") == ".";
    assert s[..2] == "./" && "./"[..1] == "." && "."[..0] == "";
    assert Filter(".", NoSlash()) == "." && Filter("./", NoSlash()) == ".";
  }

  /** "./." is such a token. */
  lemma {:induction false} PathTokenKeepsDotDot()
    ensures SanitizePathToken(ASCII, "./.") == ".."
  {
    hide Filter, DropDotDot, Trim;
    TrimNothing("./.", ASCII.space);
    DotSlashDot();
  }

  lemma {:induction false} SameFileName(u: Unicode, r: string)
    requires r != "" && r != "." && !HasDotDot(r) && Free(r, Slash)
    requires Trim(r, u.space) == r
    ensures SanitizeFileName(u, r) == r
  {
    BaseOfPlain(r);
    DropNothing(r);
    assert r != "/" by { assert !Slash(r[0]); }
  }

  lemma {:induction false} BaseOfPlain(r: string)
    requires r != "" && Free(r, Slash)
    ensures Base(r) == r
  {
    AfterNoSlash(r);
  }

  lemma {:induction false} AfterNoSlash(r: string)
    requires Free(r, Slash)
    ensures AfterLastSlash(r) == r
  {
    if |r| > 0 {
      AfterNoSlash(r[..|r| - 1]);
    }
  }

  lemma {:induction false} DropNothing(r: string)
    requires !HasDotDot(r)
    ensures DropDotDot(r) == r
  {
    if |r| >= 2 {
      assert !(r[0] == '.' && r[0 + 1] == '.');
      forall i | 0 <= i < |r[1..]| - 1 ensures !(r[1..][i] == '.' && r[1..][i + 1] == '.') {
        assert r[1..][i] == r[i + 1] && r[1..][i + 1] == r[i + 1 + 1];
      }
      DropNothing(r[1..]);
    }
  }

  lemma {:induction false} TrimShortens(s: string, cut: char -> bool)
    ensures |Trim(s, cut)| <= |s|
    ensures |Trim(s, cut)| == |s| ==> Trim(s, cut) == s
  {
    TrimLeftShortens(s, cut);
  }

  lemma {:induction false} TrimLeftShortens(s: string, cut: char -> bool)
    ensures |TrimLeft(s, cut)| <= |s|
    ensures |TrimLeft(s, cut)| == |s| ==> TrimLeft(s, cut) == s
  {
    if |s| > 0 && cut(s[0]) {
      TrimLeftShortens(s[1..], cut);
    }
  }

  lemma {:induction false} DropShortens(s: string)
    ensures |DropDotDot(s)| <= |s|
  {
    if |s| >= 2 {
      if s[0] == '.' && s[1] == '.' { DropShortens(s[2..]); } else { DropShortens(s[1..]); }
    }
  }

  /** UploadPartyDocument sanitizes a file name, and the key builder does so again. The second time
      changes nothing exactly when the first result has no white space at its ends. */
  lemma {:induction false} FileNameAgainIff(u: Unicode, name: string)
    ensures var r := SanitizeFileName(u, name);
            SanitizeFileName(u, r) == r <==> Trim(r, u.space) == r
  {
    var r := SanitizeFileName(u, name);
    FileNameIsSafe(u, name);
    var t := Trim(r, u.space);
    TrimShortens(r, u.space);
    if t == r {
      if r != "" { SameFileName(u, r); }
    } else if t == "" {
      assert Base(t) == ".";
    } else {
      TrimChars(r, u.space, c => !Slash(c));
      BaseOfPlain(t);
      DropShortens(t);
    }
  }
}
