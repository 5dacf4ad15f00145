/** String helpers of the scraper: cleaning, splitting, and the two school-name patterns
  * written out as the searches Python's regular-expression engine performs for them. */
module Utils {
  import opened Wrappers

  // ---------------------------------------------------------------------------
  // clean_string

  /** Whitespace as Python's str.isspace(), str.strip() and the regex class \s see it. */
  predicate IsSpace(c: char) {
    || c == ' '
    || ('\t' <= c <= '\r')
    || ('\U{1c}' <= c <= '\U{1f}')
    || c == '\U{85}' || c == '\U{a0}' || c == '\U{1680}'
    || ('\U{2000}' <= c <= '\U{200a}')
    || c == '\U{2028}' || c == '\U{2029}' || c == '\U{202f}' || c == '\U{205f}' || c == '\U{3000}'
  }

  const NoBreakSpace: char := '\U{a0}'

  /** Neither a line break nor a no-break space occurs in s. */
  predicate NoBreaks(s: string) {
    forall i :: 0 <= i < |s| ==> s[i] != '\n' && s[i] != NoBreakSpace
  }

  /** s.replace('\xa0', ' ').replace('\n', ' '): both are one-character replacements. */
  function ReplaceBreaks(s: string): (r: string)
    ensures |r| == |s| && NoBreaks(r)
  {
    seq(|s|, i requires 0 <= i < |s| => if s[i] == NoBreakSpace || s[i] == '\n' then ' ' else s[i])
  }

  /** s.lstrip(): drops the leading whitespace. */
  function StripLeft(s: string): (r: string)
    ensures |r| <= |s|
    ensures r == [] || !IsSpace(r[0])
    ensures forall i :: 0 <= i < |s| - |r| ==> IsSpace(s[i])
    ensures NoBreaks(s) ==> NoBreaks(r)
  {
    if s != [] && IsSpace(s[0]) then StripLeft(s[1..]) else s
  }

  /** s.rstrip(): drops the trailing whitespace. */
  function StripRight(s: string): (r: string)
    ensures |r| <= |s|
    ensures r == [] || !IsSpace(r[|r| - 1])
    ensures r != [] ==> r[0] == s[0]
    ensures forall i :: |r| <= i < |s| ==> IsSpace(s[i])
    ensures NoBreaks(s) ==> NoBreaks(r)
  {
    if s != [] && IsSpace(s[|s| - 1]) then StripRight(s[..|s| - 1]) else s
  }

  /** lstrip keeps a suffix of its input. */
  lemma {:induction false} StripLeftKeepsSuffix(s: string)
    ensures StripLeft(s) == s[|s| - |StripLeft(s)|..]
  {
    if s != [] && IsSpace(s[0]) {
      StripLeftKeepsSuffix(s[1..]);
      assert s[1..][|s| - 1 - |StripLeft(s)|..] == s[|s| - |StripLeft(s)|..];
    }
  }

  /** rstrip keeps a prefix of its input. */
  lemma {:induction false} StripRightKeepsPrefix(s: string)
    ensures StripRight(s) == s[..|StripRight(s)|]
  {
    if s != [] && IsSpace(s[|s| - 1]) {
      StripRightKeepsPrefix(s[..|s| - 1]);
      assert s[..|s| - 1][..|StripRight(s)|] == s[..|StripRight(s)|];
    }
  }

  /** What clean_string guarantees of its result. */
  predicate IsClean(s: string) {
    && NoBreaks(s)
    && (s == [] || (!IsSpace(s[0]) && !IsSpace(s[|s| - 1])))
  }

  /** clean_string: line breaks and no-break spaces become spaces, then the ends are stripped. */
  function CleanString(s: string): (r: string)
    ensures IsClean(r)
    ensures |r| <= |s|
  {
    StripRight(StripLeft(ReplaceBreaks(s)))
  }

  /** A clean string is a fixed point of clean_string. */
  lemma CleanFixed(s: string)
    requires IsClean(s)
    ensures CleanString(s) == s
  {
    assert ReplaceBreaks(s) == s;
  }

  /** clean_string is idempotent. */
  lemma CleanIdempotent(s: string)
    ensures CleanString(CleanString(s)) == CleanString(s)
  {
    CleanFixed(CleanString(s));
  }

  // ---------------------------------------------------------------------------
  // str.split and clean_split

  /** s.find(c) as an option. */
  function IndexOf(s: string, c: char): (r: Option<nat>)
    ensures r.Some? ==> r.value < |s| && s[r.value] == c && c !in s[..r.value]
    ensures r.None? ==> c !in s
  {
    if s == [] then None
    else if s[0] == c then Some(0)
    else match IndexOf(s[1..], c)
      case None => None
      case Some(i) =>
        assert s[1..][..i] == s[1..i + 1];
        Some(i + 1)
  }

  /** Python's s.split(sep, maxsplit) for a one-character separator; a negative maxsplit means no limit. */
  function Split(s: string, sep: char, maxsplit: int): (r: seq<string>)
    ensures 1 <= |r|
    ensures maxsplit >= 0 ==> |r| <= maxsplit + 1
    ensures forall k :: 0 <= k < |r| - 1 ==> sep !in r[k]
    decreases |s|
  {
    if maxsplit == 0 then [s]
    else match IndexOf(s, sep)
      case None => [s]
      case Some(i) => [s[..i]] + Split(s[i + 1..], sep, if maxsplit > 0 then maxsplit - 1 else maxsplit)
  }

  /** sep.join(parts), the inverse of Split. */
  function Join(parts: seq<string>, sep: char): string {
    if |parts| == 0 then []
    else if |parts| == 1 then parts[0]
    else parts[0] + [sep] + Join(parts[1..], sep)
  }

  /** Splitting loses nothing: joining the pieces with the separator gives the input back. */
  lemma {:induction false} SplitJoin(s: string, sep: char, maxsplit: int)
    ensures Join(Split(s, sep, maxsplit), sep) == s
    decreases |s|
  {
    if maxsplit != 0 {
      match IndexOf(s, sep)
      case None =>
      case Some(i) =>
        var rest := Split(s[i + 1..], sep, if maxsplit > 0 then maxsplit - 1 else maxsplit);
        SplitJoin(s[i + 1..], sep, if maxsplit > 0 then maxsplit - 1 else maxsplit);
        assert Split(s, sep, maxsplit) == [s[..i]] + rest;
        assert s == s[..i] + [sep] + s[i + 1..];
    }
  }

  /** Occurrences of c in s. */
  function Count(s: string, c: char): nat {
    if s == [] then 0 else (if s[0] == c then 1 else 0) + Count(s[1..], c)
  }

  lemma {:induction false} CountAbsent(s: string, c: char)
    requires c !in s
    ensures Count(s, c) == 0
  {
    if s != [] { CountAbsent(s[1..], c); }
  }

  lemma {:induction false} CountAfterFirst(s: string, c: char, i: nat)
    requires i < |s| && s[i] == c && c !in s[..i]
    ensures Count(s, c) == 1 + Count(s[i + 1..], c)
    decreases i
  {
    if i > 0 {
      assert s[1..][..i - 1] == s[1..i];
      CountAfterFirst(s[1..], c, i - 1);
      assert s[1..][i..] == s[i + 1..];
    }
  }

  /** With the default maxsplit of -1 there is no limit: one piece more than there are separators. */
  lemma {:induction false} SplitUnlimited(s: string, sep: char, maxsplit: int)
    requires maxsplit < 0
    ensures |Split(s, sep, maxsplit)| == Count(s, sep) + 1
    decreases |s|
  {
    match IndexOf(s, sep)
    case None => CountAbsent(s, sep);
    case Some(i) =>
      CountAfterFirst(s, sep, i);
      SplitUnlimited(s[i + 1..], sep, maxsplit);
  }

  /** The loop body of clean_split, as a function: clean each piece and keep the non-empty ones. */
  function CleanPieces(parts: seq<string>): (r: seq<string>)
    ensures |r| <= |parts|
    ensures forall k :: 0 <= k < |r| ==> r[k] != [] && IsClean(r[k])
  {
    if parts == [] then []
    else
      var x := CleanString(parts[|parts| - 1]);
      CleanPieces(parts[..|parts| - 1]) + (if x == [] then [] else [x])
  }

  /** What clean_split(s, sep, cut) returns. */
  function CleanSplitOf(s: string, sep: char, cut: int): (r: seq<string>)
    ensures cut >= 0 ==> |r| <= cut + 1
    ensures forall k :: 0 <= k < |r| ==> r[k] != [] && CleanString(r[k]) == r[k]
  {
    var r := CleanPieces(Split(CleanString(s), sep, cut));
    assert forall k :: 0 <= k < |r| ==> CleanString(r[k]) == r[k] by {
      forall k | 0 <= k < |r| ensures CleanString(r[k]) == r[k] { CleanFixed(r[k]); }
    }
    r
  }

  /** clean_split: a loop appends every non-empty cleaned piece of the cleaned input. */
  method CleanSplit(s: string, sep: char, cut: int) returns (res: seq<string>)
    ensures res == CleanSplitOf(s, sep, cut)
  {
    var parts := Split(CleanString(s), sep, cut);
    res := [];
    for i := 0 to |parts|
      invariant res == CleanPieces(parts[..i])
    {
      var x := CleanString(parts[i]);
      ghost var done := parts[..i + 1];
      assert done[..i] == parts[..i] && done[i] == parts[i];
      if x != [] {
        res := res + [x];
      }
    }
    assert parts[..|parts|] == parts;
  }

  /** [x] unless x is empty. */
  function NonEmpty(x: string): seq<string> {
    if x == [] then [] else [x]
  }

  /** Splitting a cleaned string once at its first space, as the fallback of both split
    * functions does; with no space the whole string is the one piece. */
  function FirstSpaceSplit(c: string): seq<string> {
    match IndexOf(c, ' ')
    case None => NonEmpty(c)
    case Some(i) => NonEmpty(CleanString(c[..i])) + NonEmpty(CleanString(c[i + 1..]))
  }

  lemma CleanPiecesOne(a: string)
    ensures CleanPieces([a]) == NonEmpty(CleanString(a))
  {
    assert [a][..0] == [];
  }

  lemma CleanPiecesTwo(a: string, b: string)
    ensures CleanPieces([a, b]) == NonEmpty(CleanString(a)) + NonEmpty(CleanString(b))
  {
    assert [a, b][..1] == [a];
    CleanPiecesOne(a);
  }

  /** A one-time split at the first space. */
  lemma SplitOnce(c: string)
    ensures Split(c, ' ', 1) ==
              match IndexOf(c, ' ')
              case None => [c]
              case Some(i) => [c[..i], c[i + 1..]]
  {
    match IndexOf(c, ' ')
    case None =>
    case Some(i) =>
      assert Split(c[i + 1..], ' ', 0) == [c[i + 1..]];
  }

  /** Cleaning the pieces of a one-time split at the first space. */
  lemma CleanPiecesOfFirstSpace(c: string)
    ensures CleanPieces(Split(c, ' ', 1)) ==
              match IndexOf(c, ' ')
              case None => NonEmpty(CleanString(c))
              case Some(i) => NonEmpty(CleanString(c[..i])) + NonEmpty(CleanString(c[i + 1..]))
  {
    SplitOnce(c);
    match IndexOf(c, ' ')
    case None => CleanPiecesOne(c);
    case Some(i) => CleanPiecesTwo(c[..i], c[i + 1..]);
  }

  lemma CleanPiecesOfFirstSpaceClean(c: string)
    requires IsClean(c)
    ensures CleanPieces(Split(c, ' ', 1)) == FirstSpaceSplit(c)
  {
    CleanPiecesOfFirstSpace(c);
    if IndexOf(c, ' ').None? {
      CleanFixed(c);
    }
  }

  /** clean_split(s, ' ', 1) splits at the first space only. */
  lemma FallbackSplitsAtFirstSpace(t: string)
    ensures CleanSplitOf(t, ' ', 1) == FirstSpaceSplit(CleanString(t))
  {
    CleanPiecesOfFirstSpaceClean(CleanString(t));
  }

  // ---------------------------------------------------------------------------
  // The school suffixes and the two patterns

  /** The two-character words the patterns look for: the three school suffixes, 大學 alone, or
    * the two suffixes other than 大學. */
  datatype Words = Suffixes | UniversityWord | CollegeWords

  /** x y is one of `words`. */
  predicate IsWord(x: char, y: char, words: Words) {
    match words
    case Suffixes => (x == '大' && y == '學') || (x == '學' && (y == '院' || y == '校'))
    case UniversityWord => x == '大' && y == '學'
    case CollegeWords => x == '學' && (y == '院' || y == '校')
  }

  /** A two-character word of `words` starts at position i of s. */
  predicate WordAt(s: string, i: int, words: Words) {
    0 <= i && i + 2 <= |s| && IsWord(s[i], s[i + 1], words)
  }

  /** The largest j with lo <= j <= hi and one of `words` at j: where a greedy `.+` followed by
    * one of the words stops once the engine has backtracked from the end of the input. */
  function LastWord(s: string, lo: int, hi: int, words: Words): (r: Option<nat>)
    ensures r.Some? ==> lo <= r.value <= hi && WordAt(s, r.value, words)
    ensures forall j :: (if r.Some? then r.value else lo - 1) < j <= hi ==> !WordAt(s, j, words)
    decreases hi - lo
  {
    if hi < lo || hi < 0 then None
    else if WordAt(s, hi, words) then Some(hi)
    else LastWord(s, lo, hi - 1, words)
  }

  /** Length of the run of characters satisfying IsSpace that starts at k (a greedy `\s*`). */
  function SpaceRun(s: string, k: nat): (n: nat)
    requires k <= |s|
    ensures k + n <= |s|
    ensures forall i :: k <= i < k + n ==> IsSpace(s[i])
    ensures k + n == |s| || !IsSpace(s[k + n])
    decreases |s| - k
  {
    if k < |s| && IsSpace(s[k]) then 1 + SpaceRun(s, k + 1) else 0
  }

  predicate IsDigit(c: char) { '0' <= c <= '9' }

  /** Length of the run of decimal digits that starts at k (a greedy `\d+` before backtracking). */
  function DigitRun(s: string, k: nat): (n: nat)
    requires k <= |s|
    ensures k + n <= |s|
    ensures forall i :: k <= i < k + n ==> IsDigit(s[i])
    ensures k + n == |s| || !IsDigit(s[k + n])
    decreases |s| - k
  {
    if k < |s| && IsDigit(s[k]) then 1 + DigitRun(s, k + 1) else 0
  }

  /** A school name as the pattern of split_school_department delimits it: at least one
    * character followed by one of the three suffixes. */
  predicate IsSchoolName(s: string) {
    |s| >= 3 && WordAt(s, |s| - 2, Suffixes)
  }

  /** The pattern `(.+(大學|學院|學校))\s*(.*)` matches somewhere in t. On a cleaned string
    * (no line break for `.` to stop at) this happens exactly when a suffix starts at 1 or later. */
  predicate HasSchoolSuffix(t: string) {
    LastWord(t, 1, |t| - 2, Suffixes).Some?
  }

  /** What the match of split_school_department's pattern is on the cleaned input t. */
  predicate SchoolDepartmentMatch(t: string, school: string, depart: string) {
    && IsSchoolName(school)
    && |school| + |depart| <= |t|
    && t[..|school|] == school
    && t[|t| - |depart|..] == depart
    && (forall i :: |school| <= i < |t| - |depart| ==> IsSpace(t[i]))
    && (depart == [] || !IsSpace(depart[0]))
    && (forall j :: |school| - 2 < j <= |t| - 2 ==> !WordAt(t, j, Suffixes))
  }

  /** The match the engine finds: the school ends after the last suffix, the whitespace run
    * after it is skipped, and the department is the rest. */
  lemma {:induction false} MatchAtLastSuffix(t: string, l: nat)
    requires LastWord(t, 1, |t| - 2, Suffixes) == Some(l)
    ensures SchoolDepartmentMatch(t, t[..l + 2], t[l + 2 + SpaceRun(t, l + 2)..])
  {
    var k := l + 2;
    var w := SpaceRun(t, k);
    var school, depart := t[..k], t[k + w..];
    assert school[|school| - 2] == t[l] && school[|school| - 1] == t[l + 1];
    assert |t| - |depart| == k + w;
    assert depart != [] ==> depart[0] == t[k + w];
  }

  /** split_school_department. The source returns a pair when its pattern matches and the list
    * clean_split(s, ' ', 1) otherwise, which may hold none, one or two strings. */
  function SplitSchoolDepartment(s: string): (r: seq<string>)
    ensures var t := CleanString(s);
              HasSchoolSuffix(t) ==> |r| == 2 && SchoolDepartmentMatch(t, r[0], r[1])
    ensures var t := CleanString(s); !HasSchoolSuffix(t) ==> r == CleanSplitOf(t, ' ', 1)
  {
    var t := CleanString(s);
    match LastWord(t, 1, |t| - 2, Suffixes)
    case Some(l) =>
      MatchAtLastSuffix(t, l);
      [t[..l + 2], t[l + 2 + SpaceRun(t, l + 2)..]]
    case None => CleanSplitOf(t, ' ', 1)
  }

  /** The match is determined by its description: the longest school prefix, then the
    * whitespace run, then the rest. */
  lemma SchoolDepartmentMatchUnique(t: string, a: string, b: string, c: string, d: string)
    requires SchoolDepartmentMatch(t, a, b) && SchoolDepartmentMatch(t, c, d)
    ensures a == c && b == d
  {
    if |a| < |c| {
      assert t[|c| - 2] == c[|c| - 2] && t[|c| - 1] == c[|c| - 1];
      assert WordAt(t, |c| - 2, Suffixes);
      assert false;
    } else if |c| < |a| {
      assert t[|a| - 2] == a[|a| - 2] && t[|a| - 1] == a[|a| - 1];
      assert WordAt(t, |a| - 2, Suffixes);
      assert false;
    }
  }

  /** The example the source's own main block prints. */
  lemma SplitSchoolDepartmentExample()
    ensures SplitSchoolDepartment("國立臺灣大學  資訊工程學系") == ["國立臺灣大學", "資訊工程學系"]
  {
    var s := "國立臺灣大學  資訊工程學系";
    assert IsClean(s);
    CleanFixed(s);
    assert WordAt(s, 4, Suffixes);
    assert forall j :: 4 < j <= |s| - 2 ==> !WordAt(s, j, Suffixes);
    var m := LastWord(s, 1, |s| - 2, Suffixes);
    assert m == Some(4);
    assert SpaceRun(s, 6) == 2 by {
      assert IsSpace(s[6]) && IsSpace(s[7]) && !IsSpace(s[8]);
    }
    assert s[..6] == "國立臺灣大學" && s[8..] == "資訊工程學系";
  }

  // split_school_id_name's pattern `(\d+)\s*(.+大學|學院|學校)`: the alternation binds loosely, so its
  // second group is `.+大學`, or the bare word 學院, or the bare word 學校. The functions below
  // follow the engine's search order: leftmost start, longest digit run first, longest
  // whitespace run first, then the alternatives from left to right. `grouped` selects the
  // pattern with the suffixes in a non-capturing group, `(\d+)\s*(.+(?:大學|學院|學校))`, so that
  // findall still yields pairs.

  /** The name an id-name match has. */
  predicate IsIdName(name: string, grouped: bool) {
    if grouped then IsSchoolName(name)
    else (|name| >= 3 && WordAt(name, |name| - 2, UniversityWord)) || name == "學院" || name == "學校"
  }

  /** The second group tried at position q. */
  function NameAt(s: string, q: nat, grouped: bool): (r: Option<string>)
    requires q <= |s|
    ensures r.Some? ==> IsIdName(r.value, grouped)
  {
    var words := if grouped then Suffixes else UniversityWord;
    match LastWord(s, q + 1, |s| - 2, words)
    case Some(j) =>
      var name := s[q..j + 2];
      assert name[|name| - 2] == s[j] && name[|name| - 1] == s[j + 1];
      Some(name)
    case None =>
      if !grouped && q + 2 <= |s| && (s[q..q + 2] == "學院" || s[q..q + 2] == "學校") then Some(s[q..q + 2])
      else None
  }

  /** A digit-run identifier as the first group of the pattern. */
  predicate IsDigits(id: string) {
    id != [] && forall i :: 0 <= i < |id| ==> IsDigit(id[i])
  }

  /** The `\s*` of length w after a digit run of length d at p, and shorter ones on backtracking. */
  function TrySpaces(s: string, p: nat, d: nat, w: nat, grouped: bool): (r: Option<(string, string)>)
    requires 1 <= d && p + d + w <= |s|
    requires forall i :: p <= i < p + d ==> IsDigit(s[i])
    ensures r.Some? ==> IsDigits(r.value.0) && IsIdName(r.value.1, grouped)
    decreases w
  {
    match NameAt(s, p + d + w, grouped)
    case Some(name) => Some((s[p..p + d], name))
    case None => if w == 0 then None else TrySpaces(s, p, d, w - 1, grouped)
  }

  /** The `\d+` of length d at p, and shorter ones on backtracking. */
  function TryDigits(s: string, p: nat, d: nat, grouped: bool): (r: Option<(string, string)>)
    requires p + d <= |s|
    requires forall i :: p <= i < p + d ==> IsDigit(s[i])
    ensures r.Some? ==> IsDigits(r.value.0) && IsIdName(r.value.1, grouped)
    decreases d
  {
    if d == 0 then None
    else match TrySpaces(s, p, d, SpaceRun(s, p + d), grouped)
      case Some(m) => Some(m)
      case None => TryDigits(s, p, d - 1, grouped)
  }

  /** The leftmost match that starts at p or later. */
  function SearchIdName(s: string, p: nat, grouped: bool): (r: Option<(string, string)>)
    requires p <= |s|
    ensures r.Some? ==> IsDigits(r.value.0) && IsIdName(r.value.1, grouped)
    decreases |s| - p
  {
    if p == |s| then None
    else match TryDigits(s, p, DigitRun(s, p), grouped)
      case Some(m) => Some(m)
      case None => SearchIdName(s, p + 1, grouped)
  }

  /** A match of the pattern at q: d digits, then w whitespace characters, then a name the
    * second group accepts. */
  predicate MatchAt(s: string, q: nat, d: nat, w: nat, grouped: bool)
    requires q + d + w <= |s|
  {
    && 1 <= d
    && (forall i :: q <= i < q + d ==> IsDigit(s[i]))
    && (forall i :: q + d <= i < q + d + w ==> IsSpace(s[i]))
    && NameAt(s, q + d + w, grouped).Some?
  }

  /** Backtracking over `\s*` from a run at least w long reaches the whitespace run of length w. */
  lemma {:induction false} TrySpacesFinds(s: string, p: nat, d: nat, w: nat, v: nat, grouped: bool)
    requires 1 <= d && p + d + v <= |s| && w <= v
    requires forall i :: p <= i < p + d ==> IsDigit(s[i])
    requires NameAt(s, p + d + w, grouped).Some?
    ensures TrySpaces(s, p, d, v, grouped).Some?
    decreases v
  {
    if NameAt(s, p + d + v, grouped).None? {
      TrySpacesFinds(s, p, d, w, v - 1, grouped);
    }
  }

  /** Backtracking over `\d+` from a run at least d long reaches the digit run of length d. */
  lemma {:induction false} TryDigitsFinds(s: string, p: nat, d: nat, w: nat, e: nat, grouped: bool)
    requires p + e <= |s| && d <= e && p + d + w <= |s| && MatchAt(s, p, d, w, grouped)
    requires forall i :: p <= i < p + e ==> IsDigit(s[i])
    ensures TryDigits(s, p, e, grouped).Some?
    decreases e
  {
    var n := SpaceRun(s, p + e);
    if TrySpaces(s, p, e, n, grouped).None? {
      if e == d {
        assert n >= w;
        TrySpacesFinds(s, p, d, w, n, grouped);
      } else {
        TryDigitsFinds(s, p, d, w, e - 1, grouped);
      }
    }
  }

  /** The search is complete: when the pattern matches at some position q at or after p, the
    * search finds a match. */
  lemma {:induction false} SearchIdNameFinds(s: string, p: nat, q: nat, d: nat, w: nat, grouped: bool)
    requires p <= q && q + d + w <= |s| && MatchAt(s, q, d, w, grouped)
    ensures SearchIdName(s, p, grouped).Some?
    decreases q - p
  {
    var e := DigitRun(s, p);
    if TryDigits(s, p, e, grouped).None? {
      if p == q {
        assert e >= d;
        TryDigitsFinds(s, p, d, w, e, grouped);
      } else {
        SearchIdNameFinds(s, p + 1, q, d, w, grouped);
      }
    }
  }

  /** split_school_id_name as written: the pattern with the loosely bound alternation. */
  function SplitSchoolIdNameAsWritten(s: string): seq<string> {
    var t := CleanString(s);
    match SearchIdName(t, 0, false)
    case Some(m) => [m.0, m.1]
    case None => CleanSplitOf(t, ' ', 1)
  }

  /** As written, a match's name ends in 大學 or is the bare word 學院 or 學校: a name that ends
    * in 學院 or 學校 after other characters only comes from the fallback split. */
  lemma SplitSchoolIdNameAsWrittenShape(s: string)
    ensures var r := SplitSchoolIdNameAsWritten(s); var t := CleanString(s); var m := SearchIdName(t, 0, false);
            && (m.Some? ==> r == [m.value.0, m.value.1] && IsDigits(r[0]) && IsIdName(r[1], false))
            && (m.None? ==> r == CleanSplitOf(t, ' ', 1))
            && (|r| == 2 && IsDigits(r[0]) && |r[1]| >= 2 && WordAt(r[1], |r[1]| - 2, CollegeWords) ==>
                  r[1] == "學院" || r[1] == "學校" || m.None?)
  {
  }

  /** split_school_id_name with the suffixes in a non-capturing group: the corrected reading. */
  function SplitSchoolIdName(s: string): seq<string> {
    var t := CleanString(s);
    match SearchIdName(t, 0, true)
    case Some(m) => [m.0, m.1]
    case None => CleanSplitOf(t, ' ', 1)
  }

  /** A match yields a digit code and a name ending in one of the three suffixes; without a
    * match the cleaned text is split at its first space. */
  lemma SplitSchoolIdNameShape(s: string)
    ensures var r := SplitSchoolIdName(s); var t := CleanString(s); var m := SearchIdName(t, 0, true);
            && (m.Some? ==> |r| == 2 && IsDigits(r[0]) && IsSchoolName(r[1]))
            && (m.None? ==> r == CleanSplitOf(t, ' ', 1))
  {
  }

  const CollegeSample: string := "002藝術學院"

  /** As written, no name of the pattern starts after any of the digits of "002藝術學院". */
  lemma AsWrittenNoNameInSample()
    ensures NameAt(CollegeSample, 3, false).None?
    ensures NameAt(CollegeSample, 2, false).None?
    ensures NameAt(CollegeSample, 1, false).None?
  {
    var s := CollegeSample;
    assert NameAt(s, 3, false).None? by {
      assert !WordAt(s, 4, UniversityWord) && !WordAt(s, 5, UniversityWord);
      assert s[3..5] == "藝術";
    }
    assert NameAt(s, 2, false).None? by { assert s[2..4] == "2藝"; }
    assert NameAt(s, 1, false).None? by { assert s[1..3] == "02"; }
  }

  /** As written, no position of "002藝術學院" starts a match: 學院 alone must follow the digits
    * directly, and no 大學 occurs. */
  lemma IdNameAsWrittenNoMatch()
    ensures SearchIdName(CollegeSample, 0, false).None?
  {
    var s := CollegeSample;
    AsWrittenNoNameInSample();
    assert DigitRun(s, 3) == 0 && DigitRun(s, 2) == 1 && DigitRun(s, 1) == 2 && DigitRun(s, 0) == 3;
    assert SpaceRun(s, 1) == 0 && SpaceRun(s, 2) == 0 && SpaceRun(s, 3) == 0;
    assert TryDigits(s, 2, 1, false).None?;
    assert TryDigits(s, 1, 2, false).None?;
    assert TryDigits(s, 0, 3, false).None?;
    assert SearchIdName(s, 3, false).None?;
    assert SearchIdName(s, 2, false).None?;
  }

  /** With the suffixes grouped the whole of "002藝術學院" matches at once. */
  lemma IdNameGroupedMatch()
    ensures SearchIdName(CollegeSample, 0, true) == Some(("002", "藝術學院"))
  {
    var s := CollegeSample;
    assert WordAt(s, 5, Suffixes);
    assert LastWord(s, 4, 5, Suffixes) == Some(5);
    assert NameAt(s, 3, true) == Some(s[3..7]);
    assert DigitRun(s, 0) == 3 by { assert DigitRun(s, 3) == 0; }
    assert SpaceRun(s, 3) == 0;
    assert s[0..3] == "002" && s[3..7] == "藝術學院";
  }

  /** A clean text without a space and without a match splits, as written, into one piece. */
  lemma AsWrittenOnePiece(s: string)
    requires s != [] && IsClean(s) && ' ' !in s && SearchIdName(s, 0, false).None?
    ensures |SplitSchoolIdNameAsWritten(s)| == 1
  {
    CleanFixed(s);
    SplitSchoolIdNameAsWrittenShape(s);
    FallbackSplitsAtFirstSpace(s);
    assert IndexOf(s, ' ').None?;
    assert FirstSpaceSplit(s) == [s];
  }

  /** A school name that ends in 學院 and is written right after its code: as written the pattern
    * finds no match and the one-element fallback cannot be unpacked into code and name. */
  lemma IdNameCollegeCounterexample()
    ensures |SplitSchoolIdNameAsWritten(CollegeSample)| == 1
  {
    var s := CollegeSample;
    assert IsClean(s);
    IdNameAsWrittenNoMatch();
    assert ' ' !in s;
    AsWrittenOnePiece(s);
  }

  /** With the suffixes grouped the same cell yields code and name. */
  lemma IdNameCollegeGrouped()
    ensures SplitSchoolIdName(CollegeSample) == ["002", "藝術學院"]
  {
    var s := CollegeSample;
    assert IsClean(s);
    CleanFixed(s);
    IdNameGroupedMatch();
  }

  /** A university list cell: code, space, name. Both readings of the pattern agree on it. */
  lemma SplitSchoolIdNameExample()
    ensures SplitSchoolIdNameAsWritten("001 國立臺灣大學") == ["001", "國立臺灣大學"]
    ensures SplitSchoolIdName("001 國立臺灣大學") == ["001", "國立臺灣大學"]
  {
    var s := "001 國立臺灣大學";
    assert IsClean(s);
    CleanFixed(s);
    assert WordAt(s, 8, Suffixes) && WordAt(s, 8, UniversityWord);
    assert LastWord(s, 5, 8, Suffixes) == Some(8);
    assert LastWord(s, 5, 8, UniversityWord) == Some(8);
    assert NameAt(s, 4, true) == Some(s[4..10]);
    assert NameAt(s, 4, false) == Some(s[4..10]);
    assert DigitRun(s, 0) == 3 by { assert DigitRun(s, 3) == 0; }
    assert SpaceRun(s, 3) == 1 by { assert SpaceRun(s, 4) == 0; }
    assert TrySpaces(s, 0, 3, 1, true) == Some((s[0..3], s[4..10]));
    assert TrySpaces(s, 0, 3, 1, false) == Some((s[0..3], s[4..10]));
    assert s[0..3] == "001" && s[4..10] == "國立臺灣大學";
  }

  // ---------------------------------------------------------------------------
  // str.strip('()')

  predicate IsParen(c: char) { c == '(' || c == ')' }

  /** s.strip('()'): drops parentheses from both ends. */
  function StripParens(s: string): (r: string)
    ensures |r| <= |s|
    ensures r == [] || (!IsParen(r[0]) && !IsParen(r[|r| - 1]))
    decreases |s|
  {
    if s == [] then s
    else if IsParen(s[0]) then StripParens(s[1..])
    else if IsParen(s[|s| - 1]) then StripParens(s[..|s| - 1])
    else s
  }

  /** r sits at offset a in s, with only parentheses before it and only parentheses after it. */
  predicate StrippedAt(s: string, a: nat, r: string) {
    && a + |r| <= |s| && r == s[a..a + |r|]
    && (forall i :: 0 <= i < a ==> IsParen(s[i]))
    && (forall i :: a + |r| <= i < |s| ==> IsParen(s[i]))
  }

  /** Only the ends go: the result is a slice of the input, and everything dropped before and
    * after it is a parenthesis. */
  lemma {:induction false} StripParensSlice(s: string)
    ensures exists a: nat :: StrippedAt(s, a, StripParens(s))
    decreases |s|
  {
    var r := StripParens(s);
    if s == [] {
      assert StrippedAt(s, 0, r);
    } else if IsParen(s[0]) {
      var t := s[1..];
      StripParensSlice(t);
      var a: nat :| StrippedAt(t, a, r);
      assert r == s[a + 1..a + 1 + |r|];
      assert forall i :: 1 <= i < a + 1 ==> IsParen(s[i]) by {
        forall i | 1 <= i < a + 1 ensures IsParen(s[i]) { assert s[i] == t[i - 1]; }
      }
      assert forall i :: a + 1 + |r| <= i < |s| ==> IsParen(s[i]) by {
        forall i | a + 1 + |r| <= i < |s| ensures IsParen(s[i]) { assert s[i] == t[i - 1]; }
      }
      assert StrippedAt(s, a + 1, r);
    } else if IsParen(s[|s| - 1]) {
      var t := s[..|s| - 1];
      StripParensSlice(t);
      var a: nat :| StrippedAt(t, a, r);
      assert r == s[a..a + |r|];
      assert StrippedAt(s, a, r);
    } else {
      assert StrippedAt(s, 0, r);
    }
  }
}
