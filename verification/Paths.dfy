/** path.Join and the object key built with it. */
module Paths {
  import opened Text
  import opened ObjectKeys
  import opened Slugs

  // ---- path.Clean and path.Join ----

  /** One path element on the elements kept so far. */
  function Push(kept: seq<string>, element: string, rooted: bool): seq<string> {
    if element == "" || element == "." then kept
    else if element != ".." then kept + [element]
    else if |kept| > 0 && kept[|kept| - 1] != ".." then kept[..|kept| - 1]
    else if rooted then kept
    else kept + [".."]
  }

  function PushAll(elements: seq<string>, rooted: bool): seq<string> {
    if |elements| == 0 then []
    else Push(PushAll(elements[..|elements| - 1], rooted), elements[|elements| - 1], rooted)
  }

  function Clean(path: string): string {
    var rooted := |path| > 0 && path[0] == '/';
    var r := (if rooted then "/" else "") + Join(PushAll(Split(path, Slash), rooted), "/");
    if r == "" then "." else r
  }

  function DropLeadingEmpty(elements: seq<string>): seq<string> {
    if |elements| > 0 && elements[0] == "" then DropLeadingEmpty(elements[1..]) else elements
  }

  function PathJoin(elements: seq<string>): string {
    var rest := DropLeadingEmpty(elements);
    if |rest| == 0 then "" else Clean(Join(rest, "/"))
  }

  // ---- Object keys ----

  function Digit(n: nat): char
    requires n < 10
  {
    '0' + n as char
  }

  function Decimal(n: nat): (r: string)
    ensures r != "" && forall i | 0 <= i < |r| :: '0' <= r[i] <= '9'
  {
    if n < 10 then [Digit(n)] else Decimal(n / 10) + [Digit(n % 10)]
  }

  /** %0<width>d of a number that is not negative. */
  function Padded(n: nat, width: nat): (r: string)
    ensures r != "" && forall i | 0 <= i < |r| :: '0' <= r[i] <= '9'
    ensures |r| >= width
  {
    var d := Decimal(n);
    if |d| >= width then d else seq(width - |d|, i => '0') + d
  }

  /** The number a string of digits denotes. */
  function Value(s: string): nat
    requires forall i | 0 <= i < |s| :: '0' <= s[i] <= '9'
  {
    if |s| == 0 then 0 else 10 * Value(s[..|s| - 1]) + (s[|s| - 1] - '0') as nat
  }

  lemma {:induction false} DecimalValue(n: nat)
    ensures Value(Decimal(n)) == n
  {
    if n < 10 {
      assert Decimal(n)[..0] == "";
    } else {
      DecimalValue(n / 10);
      var d := Decimal(n);
      assert d[..|d| - 1] == Decimal(n / 10);
    }
  }

  lemma {:induction false} LeadingZeros(k: nat, s: string)
    requires forall i | 0 <= i < |s| :: '0' <= s[i] <= '9'
    ensures Value(seq(k, i => '0') + s) == Value(s)
  {
    var t := seq(k, i => '0') + s;
    if |s| > 0 {
      LeadingZeros(k, s[..|s| - 1]);
      assert t[..|t| - 1] == seq(k, i => '0') + s[..|s| - 1];
    } else if k > 0 {
      LeadingZeros(k - 1, s);
      assert t[..k - 1] == seq(k - 1, i => '0') + s;
    }
  }

  /** Padding keeps the number. */
  lemma {:induction false} PaddedValue(n: nat, width: nat)
    ensures Value(Padded(n, width)) == n
  {
    DecimalValue(n);
    if |Decimal(n)| < width {
      LeadingZeros(width - |Decimal(n)|, Decimal(n));
    }
  }

  datatype Upload = Upload(tenantId: string, tenantName: string, partyId: string, partyName: string,
                           docType: string, fileName: string)

  datatype Date = Date(year: nat, month: nat, day: nat)

  /** The text of a UUID: hexadecimal digits and dashes. */
  predicate IsUuid(s: string) {
    |s| == 36 && forall i | 0 <= i < |s| :: s[i] == '-' || '0' <= s[i] <= '9' || 'a' <= s[i] <= 'f'
  }

  /** The text form of a UUID, five groups of hexadecimal digits, is such a text. */
  lemma {:induction false} UuidGroups(a: string, b: string, c: string, d: string, e: string)
    requires |a| == 8 && |b| == |c| == |d| == 4 && |e| == 12
    requires forall i | 0 <= i < |a + b + c + d + e| ::
               '0' <= (a + b + c + d + e)[i] <= '9' || 'a' <= (a + b + c + d + e)[i] <= 'f'
    ensures IsUuid(a + "-" + b + "-" + c + "-" + d + "-" + e)
  {
    var hex, s := a + b + c + d + e, a + "-" + b + "-" + c + "-" + d + "-" + e;
    forall i | 0 <= i < |s| ensures s[i] == '-' || '0' <= s[i] <= '9' || 'a' <= s[i] <= 'f' {
      var dashes := if i < 8 then 0 else if i < 13 then 1 else if i < 18 then 2 else if i < 23 then 3 else 4;
      assert s[i] == '-' || s[i] == hex[i - dashes];
    }
  }

  function KeyParts(u: Unicode, x: Upload, unique: string, today: Date): (r: seq<string>)
    ensures |r| == 9
  {
    var docSlug := Slug(u, x.docType, "document");
    var file := SanitizeFileName(u, x.fileName);
    ["tenants",
     Slug(u, x.tenantName, x.tenantId) + "-" + x.tenantId,
     "parties",
     Slug(u, x.partyName, x.partyId) + "-" + x.partyId,
     docSlug,
     Padded(today.year, 4),
     Padded(today.month, 2),
     Padded(today.day, 2),
     unique + "-" + if file == "" then docSlug + ".bin" else file]
  }

  function BuildObjectKey(u: Unicode, prefix: string, x: Upload, unique: string, today: Date): string {
    PathJoin((if prefix == "" then [] else [prefix]) + KeyParts(u, x, unique, today))
  }

  /** An element that cleaning leaves alone: not empty, no slash, neither "." nor "..". */
  predicate Plain(s: string) {
    s != "" && s != "." && s != ".." && Free(s, Slash)
  }

  predicate AllPlain(parts: seq<string>) {
    forall i | 0 <= i < |parts| :: Plain(parts[i])
  }

  lemma {:induction false} PushPlain(parts: seq<string>)
    requires AllPlain(parts)
    ensures PushAll(parts, false) == parts
  {
    if |parts| > 0 {
      var n := |parts| - 1;
      PushPlain(parts[..n]);
      assert parts == parts[..n] + [parts[n]];
    }
  }

  lemma {:induction false} SplitPlain(parts: seq<string>)
    requires |parts| > 0 && AllPlain(parts)
    ensures Split(Join(parts, "/"), Slash) == parts
    ensures Join(parts, "/") != "" && Join(parts, "/")[0] != '/'
  {
    assert ['/'] == "/";
    assert forall i | 0 <= i < |parts| :: Plain(parts[i]);
    SplitJoin(parts, '/', Slash);
    JoinEnds(parts, "/");
  }

  /** On plain elements path.Join is plain joining, and splitting at slashes undoes it. */
  lemma {:induction false} PathJoinPlain(parts: seq<string>)
    requires |parts| > 0 && AllPlain(parts)
    ensures PathJoin(parts) == Join(parts, "/") && Split(PathJoin(parts), Slash) == parts
  {
    hide Split, Join;
    assert Plain(parts[0]);
    SplitPlain(parts);
    PushPlain(parts);
    assert "" + Join(parts, "/") == Join(parts, "/");
  }

  // ---- What path.Join makes of anything before plain elements ----

  /** A path below a cleaned directory. */
  function Under(dir: string, rest: string): string {
    if dir == "." then rest else if dir == "/" then "/" + rest else dir + "/" + rest
  }

  function Base(dir: string): seq<string> {
    if dir == "." then [] else if dir == "/" then [""] else Split(dir, Slash)
  }

  lemma {:induction false} JoinAppend(a: seq<string>, b: seq<string>)
    requires |a| > 0 && |b| > 0
    ensures Join(a + b, "/") == Join(a, "/") + "/" + Join(b, "/")
  {
    hide Join;
    var n := |b| - 1;
    assert b == b[..n] + [b[n]];
    assert a + b == a + b[..n] + [b[n]];
    JoinSnoc(a + b[..n], b[n], "/");
    JoinSnoc(b[..n], b[n], "/");
    if n == 0 {
      assert a + b[..0] == a;
    } else {
      JoinAppend(a, b[..n]);
    }
  }

  /** Splitting below a directory splits the directory and leaves the parts. */
  lemma {:induction false} SplitBelow(s: string, parts: seq<string>)
    requires |parts| > 0 && AllPlain(parts)
    ensures Split(s + "/" + Join(parts, "/"), Slash) == Split(s, Slash) + parts
  {
    hide Split;
    var n := |parts| - 1;
    assert Plain(parts[n]) && ['/'] == "/";
    assert parts == parts[..n] + [parts[n]];
    JoinSnoc(parts[..n], parts[n], "/");
    if n == 0 {
      SplitAppend(s, '/', parts[0], Slash);
    } else {
      SplitBelow(s, parts[..n]);
      var front := s + "/" + Join(parts[..n], "/");
      SplitAppend(front, '/', parts[n], Slash);
      assert s + "/" + Join(parts, "/") == front + ['/'] + parts[n];
    }
  }

  lemma {:induction false} SplitUnder(dir: string, parts: seq<string>)
    requires |parts| > 0 && AllPlain(parts)
    ensures Split(Under(dir, Join(parts, "/")), Slash) == Base(dir) + parts
  {
    hide Split, Join, Plain;
    SplitPlain(parts);
    SplitBelow(dir, parts);
    SplitBelow("", parts);
    SplitWhole("", Slash);
    assert "" + "/" + Join(parts, "/") == "/" + Join(parts, "/");
    assert [] + parts == parts;
  }

  lemma {:induction false} PushAllPlain(elements: seq<string>, parts: seq<string>, rooted: bool)
    requires AllPlain(parts)
    ensures PushAll(elements + parts, rooted) == PushAll(elements, rooted) + parts
  {
    if |parts| == 0 {
      assert elements + parts == elements;
    } else {
      var n := |parts| - 1;
      PushAllPlain(elements, parts[..n], rooted);
      assert Plain(parts[n]);
      assert (elements + parts)[..|elements + parts| - 1] == elements + parts[..n];
    }
  }

  /** An element that cleaning can keep; ".." is one. */
  predicate Kept(s: string) {
    s != "" && s != "." && Free(s, Slash)
  }

  lemma {:induction false} PushAllKept(elements: seq<string>, rooted: bool)
    requires AllFree(elements, Slash)
    ensures forall i | 0 <= i < |PushAll(elements, rooted)| :: Kept(PushAll(elements, rooted)[i])
  {
    if |elements| > 0 {
      PushAllKept(elements[..|elements| - 1], rooted);
    }
  }

  lemma {:induction false} JoinNotDot(parts: seq<string>)
    requires |parts| > 0 && forall i | 0 <= i < |parts| :: Kept(parts[i])
    ensures Join(parts, "/") != "" && Join(parts, "/") != "." && Join(parts, "/")[0] != '/'
  {
    JoinEnds(parts, "/");
    if |parts| > 1 {
      JoinEnds(parts[..|parts| - 1], "/");
    }
  }

  /** Plain elements below any path stay, and the path is cleaned by itself. */
  lemma {:induction false} CleanUnder(path: string, parts: seq<string>)
    requires path != "" && |parts| > 0 && AllPlain(parts)
    ensures Clean(path + "/" + Join(parts, "/")) == Under(Clean(path), Join(parts, "/"))
  {
    hide Split, PushAll, Join;
    var rooted := path[0] == '/';
    var kept := PushAll(Split(path, Slash), rooted);
    var root, tail := if rooted then "/" else "", Join(parts, "/");
    SplitBelow(path, parts);
    PushAllPlain(Split(path, Slash), parts, rooted);
    SplitFree(path, Slash);
    PushAllKept(Split(path, Slash), rooted);
    SplitPlain(parts);
    assert (path + "/" + tail)[0] == path[0];
    if |kept| == 0 {
      assert kept + parts == parts;
      JoinNothing();
      assert Clean(path) == if rooted then "/" else ".";
      assert "" + tail == tail;
    } else {
      JoinAppend(kept, parts);
      JoinNotDot(kept);
      assert Clean(path) == root + Join(kept, "/");
      assert root + (Join(kept, "/") + "/" + tail) == root + Join(kept, "/") + "/" + tail;
    }
  }

  lemma {:induction false} JoinNothing()
    ensures Join([], "/") == ""
  {
  }

  lemma {:induction false} DropLeadingEmptyAppend(elements: seq<string>, parts: seq<string>)
    requires |parts| > 0 && parts[0] != ""
    ensures DropLeadingEmpty(elements + parts) == DropLeadingEmpty(elements) + parts
    ensures |DropLeadingEmpty(elements)| > 0 ==> DropLeadingEmpty(elements)[0] != ""
  {
    if |elements| == 0 {
      assert elements + parts == parts;
    } else if elements[0] == "" {
      assert (elements + parts)[1..] == elements[1..] + parts;
      DropLeadingEmptyAppend(elements[1..], parts);
    }
  }

  lemma {:induction false} JoinStartsWith(parts: seq<string>)
    requires |parts| > 0 && parts[0] != ""
    ensures Join(parts, "/") != ""
  {
    if |parts| > 1 {
      JoinStartsWith(parts[..|parts| - 1]);
    }
  }

  function Dir(joined: string): string {
    if joined == "" then "." else joined
  }

  /** path.Join of any elements and then plain ones: the plain ones stay as they are below what
      path.Join makes of the others. */
  lemma {:induction false} PathJoinUnder(elements: seq<string>, parts: seq<string>)
    requires |parts| > 0 && AllPlain(parts)
    ensures PathJoin(elements + parts) == Under(Dir(PathJoin(elements)), Join(parts, "/"))
    ensures Split(PathJoin(elements + parts), Slash) == Base(Dir(PathJoin(elements))) + parts
  {
    hide Split, Join, Clean;
    assert Plain(parts[0]);
    var rest := DropLeadingEmpty(elements);
    DropLeadingEmptyAppend(elements, parts);
    SplitUnder(Dir(PathJoin(elements)), parts);
    if |rest| == 0 {
      assert rest + parts == parts;
      assert PathJoin(elements + parts) == PathJoin(parts) by {
        DropLeadingEmptyAppend([], parts);
        assert [] + parts == parts;
      }
      PathJoinPlain(parts);
    } else {
      JoinStartsWith(rest);
      JoinAppend(rest, parts);
      CleanUnder(Join(rest, "/"), parts);
      CleanNotEmpty(Join(rest, "/"));
    }
  }

  lemma {:induction false} CleanNotEmpty(path: string)
    ensures Clean(path) != ""
  {
  }

  lemma {:induction false} SlugPlain(u: Unicode, value: string, fallback: string)
    requires Lawful(u) && All(fallback, c => c != '.')
    ensures Plain(Slug(u, value, fallback))
  {
    hide Join, SlugWords, SanitizePathToken;
    var slug := Slug(u, value, fallback);
    SlugIsSafe(u, value, fallback);
    if |SlugWords(u, value, fallback)| > 0 {
      SlugChars(u, value, fallback);
      assert SlugLetter(u)(slug[0]);
    } else {
      PathTokenChars(u, fallback, c => c != '.');
    }
    assert slug[0] != '.';
  }

  lemma {:induction false} DashedPlain(a: string, b: string)
    requires a != "" && Free(a, Slash) && Free(b, Slash)
    ensures Plain(a + "-" + b)
  {
    var s := a + "-" + b;
    assert s[|a|] == '-';
  }

  lemma {:induction false} DigitsPlain(s: string)
    requires s != "" && forall i | 0 <= i < |s| :: '0' <= s[i] <= '9'
    ensures Plain(s)
  {
    assert s[0] != '.' && "."[0] == '.' && ".."[0] == '.';
  }

  lemma {:induction false} FreeAppend(a: string, b: string)
    requires Free(a, Slash) && Free(b, Slash)
    ensures Free(a + b, Slash)
  {
  }

  lemma {:induction false} FilePlain(u: Unicode, x: Upload, unique: string)
    requires Lawful(u) && IsUuid(unique)
    ensures var file := SanitizeFileName(u, x.fileName);
            Plain(unique + "-" + if file == "" then Slug(u, x.docType, "document") + ".bin" else file)
  {
    hide SanitizeFileName, Slug, Plain;
    FileNameIsSafe(u, x.fileName);
    SlugIsSafe(u, x.docType, "document");
    var slug, file := Slug(u, x.docType, "document"), SanitizeFileName(u, x.fileName);
    assert Free(slug, Slash) && Free(".bin", Slash) && Free(file, Slash) && Free(unique, Slash);
    FreeAppend(slug, ".bin");
    DashedPlain(unique, if file == "" then slug + ".bin" else file);
  }

  /** Neither id brings a slash of its own into the key. */
  predicate IdsFree(x: Upload) {
    Free(x.tenantId, Slash) && Free(x.partyId, Slash)
  }

  lemma {:induction false} KeyPartsPlain(u: Unicode, x: Upload, unique: string, today: Date)
    requires Lawful(u) && IsUuid(unique) && IdsFree(x)
    ensures AllPlain(KeyParts(u, x, unique, today))
  {
    hide Slug, Padded, SanitizeFileName;
    var parts := KeyParts(u, x, unique, today);
    SlugIsSafe(u, x.tenantName, x.tenantId);
    DashedPlain(Slug(u, x.tenantName, x.tenantId), x.tenantId);
    SlugIsSafe(u, x.partyName, x.partyId);
    DashedPlain(Slug(u, x.partyName, x.partyId), x.partyId);
    SlugPlain(u, x.docType, "document");
    DigitsPlain(Padded(today.year, 4));
    DigitsPlain(Padded(today.month, 2));
    DigitsPlain(Padded(today.day, 2));
    FilePlain(u, x, unique);
    assert Plain("tenants") && Plain("parties");
  }

  lemma {:induction false} SlashInParts(u: Unicode, x: Upload, unique: string, today: Date)
    requires !IdsFree(x)
    ensures !AllFree(KeyParts(u, x, unique, today), Slash)
  {
    hide Slug, SanitizeFileName, Padded;
    var parts := KeyParts(u, x, unique, today);
    SlashAfter(Slug(u, x.tenantName, x.tenantId), x.tenantId);
    SlashAfter(Slug(u, x.partyName, x.partyId), x.partyId);
    assert !Free(parts[1], Slash) || !Free(parts[3], Slash);
  }

  lemma {:induction false} SlashAfter(slug: string, id: string)
    ensures Free(slug + "-" + id, Slash) ==> Free(id, Slash)
  {
    if i :| 0 <= i < |id| && Slash(id[i]) {
      assert (slug + "-" + id)[|slug| + 1 + i] == id[i];
    }
  }

  /** The last pieces of a sequence. */
  predicate EndsWith(pieces: seq<string>, parts: seq<string>) {
    |pieces| >= |parts| && pieces[|pieces| - |parts|..] == parts
  }

  /** Under any prefix, splitting the key at slashes ends with the nine parts if and only if no id
      has a slash; the key is then those parts joined by slashes, below the cleaned prefix. */
  lemma {:induction false} KeyWithPrefixIff(u: Unicode, prefix: string, x: Upload, unique: string, today: Date)
    requires Lawful(u) && IsUuid(unique)
    ensures EndsWith(Split(BuildObjectKey(u, prefix, x, unique, today), Slash), KeyParts(u, x, unique, today))
       <==> IdsFree(x)
    ensures IdsFree(x) ==>
              && BuildObjectKey(u, prefix, x, unique, today)
                 == Under(Clean(prefix), Join(KeyParts(u, x, unique, today), "/"))
              && Split(BuildObjectKey(u, prefix, x, unique, today), Slash)
                 == Base(Clean(prefix)) + KeyParts(u, x, unique, today)
  {
    hide KeyParts, Join, Split, Plain, IdsFree, Clean, Under, Base;
    var parts := KeyParts(u, x, unique, today);
    var before := if prefix == "" then [] else [prefix];
    PathJoinOne(prefix);
    if IdsFree(x) {
      KeyPartsPlain(u, x, unique, today);
      PathJoinUnder(before, parts);
    } else {
      var pieces := Split(BuildObjectKey(u, prefix, x, unique, today), Slash);
      SplitFree(BuildObjectKey(u, prefix, x, unique, today), Slash);
      SlashInParts(u, x, unique, today);
      if EndsWith(pieces, parts) {
        FreeTail(pieces, |pieces| - |parts|);
      }
    }
  }

  lemma {:induction false} FreeTail(pieces: seq<string>, n: nat)
    requires AllFree(pieces, Slash) && n <= |pieces|
    ensures AllFree(pieces[n..], Slash)
  {
  }

  lemma {:induction false} PathJoinOne(prefix: string)
    ensures Dir(PathJoin(if prefix == "" then [] else [prefix])) == Clean(prefix)
  {
    if prefix == "" {
      assert Split("", Slash) == [""] && [""][..0] == [];
      assert PushAll([""], false) == Push(PushAll([], false), "", false) == [];
    } else {
      assert DropLeadingEmpty([prefix]) == [prefix];
    }
  }

  /** Without a prefix, splitting the key at slashes recovers the nine parts if and only if no id
      has a slash. */
  lemma {:induction false} KeyRecoversPartsIff(u: Unicode, x: Upload, unique: string, today: Date)
    requires Lawful(u) && IsUuid(unique)
    ensures Split(BuildObjectKey(u, "", x, unique, today), Slash) == KeyParts(u, x, unique, today) <==> IdsFree(x)
    ensures IdsFree(x) ==>
              BuildObjectKey(u, "", x, unique, today) == Join(KeyParts(u, x, unique, today), "/")
  {
    hide KeyParts, Join, Split, IdsFree, BuildObjectKey, Clean;
    KeyWithPrefixIff(u, "", x, unique, today);
    PathJoinOne("");
    assert PathJoin([]) == "";
    assert [] + KeyParts(u, x, unique, today) == KeyParts(u, x, unique, today);
  }

  /** Uploads with different unique ids never get the same key, whatever else they share, ids,
      names and prefixes included. */
  lemma {:induction false} KeysDistinct(u: Unicode, prefix: string, x: Upload, unique: string, today: Date,
                                        another: string, y: Upload, other: string, later: Date)
    requires Lawful(u) && IsUuid(unique) && IsUuid(other) && unique != other
    ensures BuildObjectKey(u, prefix, x, unique, today) != BuildObjectKey(u, another, y, other, later)
  {
    hide BuildObjectKey;
    LastPiece(u, prefix, x, unique, today);
    LastPiece(u, another, y, other, later);
  }

  /** The last piece of a key begins with its unique id. */
  lemma {:induction false} LastPiece(u: Unicode, prefix: string, x: Upload, unique: string, today: Date)
    requires Lawful(u) && IsUuid(unique)
    ensures var pieces := Split(BuildObjectKey(u, prefix, x, unique, today), Slash);
            unique <= pieces[|pieces| - 1]
  {
    hide Slug, SanitizeFileName, Padded, PathJoin, Split, Base, Join, Under;
    var parts := KeyParts(u, x, unique, today);
    FilePlain(u, x, unique);
    var before := (if prefix == "" then [] else [prefix]) + parts[..8];
    assert before + [parts[8]] == (if prefix == "" then [] else [prefix]) + parts;
    assert AllPlain([parts[8]]);
    PathJoinUnder(before, [parts[8]]);
  }

  // ---- The nine pieces ----

  /** The k-th of the last nine pieces of the key, which any prefix comes before. */
  function Piece(u: Unicode, prefix: string, x: Upload, unique: string, today: Date, k: nat): string
    requires k < 9
  {
    var pieces := Split(BuildObjectKey(u, prefix, x, unique, today), Slash);
    if |pieces| >= 9 then pieces[|pieces| - 9 + k] else ""
  }

  predicate AllDigits(s: string) {
    forall i | 0 <= i < |s| :: '0' <= s[i] <= '9'
  }

  /** The number n in at least `width` digits, and no more than it needs. */
  predicate Numbers(s: string, n: nat, width: nat) {
    AllDigits(s) && Value(s) == n && |s| >= width && (|s| > width ==> s[0] != '0')
  }

  lemma {:induction false} DecimalStart(n: nat)
    ensures n > 0 ==> Decimal(n)[0] != '0'
    ensures n == 0 ==> |Decimal(n)| == 1
  {
    if n >= 10 {
      DecimalStart(n / 10);
    }
  }

  lemma {:induction false} PaddedNumbers(n: nat, width: nat)
    requires width > 0
    ensures Numbers(Padded(n, width), n, width)
  {
    PaddedValue(n, width);
    DecimalStart(n);
  }

  /** The key below its prefix, piece by piece: the tenant's folder is the slug of its name, a dash
      and its id, the party's likewise; then the slug of the document type, year, month and day as
      numbers, and last the unique id, a dash and the safe file name, or the type's slug with ".bin"
      where the file has no name. */
  lemma {:induction false} KeyPieces(u: Unicode, prefix: string, x: Upload, unique: string, today: Date)
    requires Lawful(u) && IsUuid(unique) && IdsFree(x)
    ensures Piece(u, prefix, x, unique, today, 0) == "tenants"
    ensures Piece(u, prefix, x, unique, today, 1) == Slug(u, x.tenantName, x.tenantId) + "-" + x.tenantId
    ensures Piece(u, prefix, x, unique, today, 2) == "parties"
    ensures Piece(u, prefix, x, unique, today, 3) == Slug(u, x.partyName, x.partyId) + "-" + x.partyId
    ensures Piece(u, prefix, x, unique, today, 4) == Slug(u, x.docType, "document")
    ensures Numbers(Piece(u, prefix, x, unique, today, 5), today.year, 4)
    ensures Numbers(Piece(u, prefix, x, unique, today, 6), today.month, 2)
    ensures Numbers(Piece(u, prefix, x, unique, today, 7), today.day, 2)
    ensures SanitizeFileName(u, x.fileName) != "" ==>
              Piece(u, prefix, x, unique, today, 8) == unique + "-" + SanitizeFileName(u, x.fileName)
    ensures SanitizeFileName(u, x.fileName) == "" ==>
              Piece(u, prefix, x, unique, today, 8) == unique + "-" + Slug(u, x.docType, "document") + ".bin"
  {
    hide Slug, SanitizeFileName, Padded, BuildObjectKey, Split, Base, Clean, Under, Join, Numbers;
    KeyWithPrefixIff(u, prefix, x, unique, today);
    PaddedNumbers(today.year, 4);
    PaddedNumbers(today.month, 2);
    PaddedNumbers(today.day, 2);
    var parts := KeyParts(u, x, unique, today);
    forall k | 0 <= k < 9 ensures Piece(u, prefix, x, unique, today, k) == parts[k] {
      assert (Base(Clean(prefix)) + parts)[|Base(Clean(prefix))| + k] == parts[k];
    }
    var doc := Slug(u, x.docType, "document");
    assert unique + "-" + (doc + ".bin") == unique + "-" + doc + ".bin";
  }

  // ---- How a prefix is cleaned ----

  lemma {:induction false} SplitSnocSlash(path: string, t: string)
    requires Free(t, Slash)
    ensures Split(path + "/" + t, Slash) == Split(path, Slash) + [t]
  {
    assert path + "/" + t == path + ['/'] + t;
    SplitAppend(path, '/', t, Slash);
  }

  lemma {:induction false} CleanSame(path: string, t: string)
    requires path != "" && Free(t, Slash)
    requires Push(PushAll(Split(path, Slash), path[0] == '/'), t, path[0] == '/')
          == PushAll(Split(path, Slash), path[0] == '/')
    ensures Clean(path + "/" + t) == Clean(path)
  {
    hide Split, Push;
    SplitSnocSlash(path, t);
    assert (Split(path, Slash) + [t])[..|Split(path, Slash)|] == Split(path, Slash);
    assert (path + "/" + t)[0] == path[0];
  }

  /** The rules of path.Clean at the end of a path: a trailing slash and "." go, ".." takes back the
      element before it, goes at the root, and stays at the start of a relative path. */
  lemma {:induction false} CleanRules(path: string, x: string)
    requires path != "" && Plain(x)
    ensures Clean(path + "/" + "") == Clean(path)
    ensures Clean(path + "/" + ".") == Clean(path)
    ensures Clean(path + "/" + x + "/" + "..") == Clean(path)
    ensures Clean("/" + "/" + "..") == "/"
    ensures Clean("..") == ".." && Clean(".." + "/" + "..") == ".." + "/" + ".."
  {
    hide Split, Join;
    CleanSame(path, "");
    CleanSame(path, ".");
    CleanBack(path, x);
    RootStays();
    UpwardsStays();
  }

  lemma {:induction false} UpwardsStays()
    ensures Clean("..") == ".." && Clean(".." + "/" + "..") == ".." + "/" + ".."
  {
    hide Split, Join;
    SplitWhole("..", Slash);
    SplitSnocSlash("..", "..");
    var one, two := [".."], ["..", ".."];
    assert one[..0] == [] && two[..1] == one && one + [".."] == two;
    assert PushAll([], false) == [] && PushAll(one, false) == one && PushAll(two, false) == two;
    JoinSnoc([], "..", "/");
    JoinSnoc(one, "..", "/");
    assert [] + [".."] == one;
  }

  lemma {:induction false} RootStays()
    ensures Clean("/" + "/" + "..") == "/"
  {
    hide Split;
    SplitWhole("", Slash);
    SplitSnocSlash("", "");
    assert "" + "/" + "" == "/";
    var pieces := Split("/", Slash);
    assert pieces == ["", ""] && pieces[..1] == [""] && [""][..0] == [];
    assert PushAll([""], true) == [] && PushAll(pieces, true) == [];
    CleanSame("/", "..");
    JoinNothing();
  }

  lemma {:induction false} CleanBack(path: string, x: string)
    requires path != "" && Plain(x)
    ensures Clean(path + "/" + x + "/" + "..") == Clean(path)
  {
    hide Split, Join;
    var elements, rooted := Split(path, Slash), path[0] == '/';
    SplitSnocSlash(path, x);
    SplitSnocSlash(path + "/" + x, "..");
    var all := path + "/" + x + "/" + "..";
    assert all[0] == path[0];
    assert elements + [x] + [".."] == Split(all, Slash);
    assert (elements + [x] + [".."])[..|elements| + 1] == elements + [x];
    assert (elements + [x])[..|elements|] == elements;
    var kept := PushAll(elements, rooted);
    assert PushAll(elements + [x], rooted) == kept + [x];
    assert PushAll(elements + [x] + [".."], rooted) == kept;
  }

  /** Under one prefix, tenants identified by UUIDs never share a folder, whatever their names. */
  lemma {:induction false} TenantsSeparate(u: Unicode, prefix: string, x: Upload, unique: string, today: Date,
                                           y: Upload, other: string, later: Date)
    requires Lawful(u) && IsUuid(unique) && IsUuid(other) && Free(x.partyId, Slash) && Free(y.partyId, Slash)
    requires IsUuid(x.tenantId) && IsUuid(y.tenantId) && x.tenantId != y.tenantId
    ensures var a := Split(BuildObjectKey(u, prefix, x, unique, today), Slash);
            var b := Split(BuildObjectKey(u, prefix, y, other, later), Slash);
            |a| == |b| >= 9 && a[|a| - 8] != b[|a| - 8]
  {
    hide Slug, SanitizeFileName, Padded, PathJoin, Split, BuildObjectKey, Clean, Base, Under, Join;
    KeyWithPrefixIff(u, prefix, x, unique, today);
    KeyWithPrefixIff(u, prefix, y, other, later);
    var a, b := KeyParts(u, x, unique, today)[1], KeyParts(u, y, other, later)[1];
    assert a[|a| - 36..] == x.tenantId && b[|b| - 36..] == y.tenantId;
  }
}
