/** The declaration pattern of `parse_global` (config_parser.py:44),
    `global\s+([_a-zA-Z][_a-zA-Z0-9]*)\s*=\s*(.+);`, applied with `re.match`:
    anchored at the start of the line only, so text after the final `;` is
    allowed.  The matcher below follows the backtracking order of the regex
    engine: every part before the value is forced, the `\s*` before the value
    gives back whitespace only when nothing else matches, and the greedy `(.+)`
    runs up to the last `;` that `.` (any character but a newline) can reach. */
module Declaration {
  import opened Results
  import opened Text

  /** Where the parts of a match sit: the name is `line[nameStart..nameEnd]`,
      `=` is at `eq`, the value is `line[valueStart..semi]` and `;` is at `semi`. */
  datatype Positions = Positions(nameStart: nat, nameEnd: nat, eq: nat, valueStart: nat, semi: nat)

  /** The regex, read declaratively: which decompositions of `line` it accepts. */
  ghost predicate Matches(line: string, pos: Positions) {
    6 < pos.nameStart < pos.nameEnd <= pos.eq < pos.valueStart < pos.semi < |line| &&
    line[..6] == "global" &&
    (forall i :: 6 <= i < pos.nameStart ==> IsSpace(line[i])) &&
    IsIdentifier(line[pos.nameStart..pos.nameEnd]) &&
    (forall i :: pos.nameEnd <= i < pos.eq ==> IsSpace(line[i])) &&
    line[pos.eq] == '=' &&
    (forall i :: pos.eq < i < pos.valueStart ==> IsSpace(line[i])) &&
    (forall i :: pos.valueStart <= i < pos.semi ==> line[i] != '\n') &&
    line[pos.semi] == ';'
  }

  /** The end of the whitespace run starting at `i`. */
  function SkipSpaces(s: string, i: nat): (j: nat)
    requires i <= |s|
    ensures i <= j <= |s|
    ensures forall k :: i <= k < j ==> IsSpace(s[k])
    ensures j == |s| || !IsSpace(s[j])
    decreases |s| - i
  {
    if i < |s| && IsSpace(s[i]) then SkipSpaces(s, i + 1) else i
  }

  /** The end of the run of identifier characters starting at `i`. */
  function SkipIdent(s: string, i: nat): (j: nat)
    requires i <= |s|
    ensures i <= j <= |s|
    ensures forall k :: i <= k < j ==> IsIdentChar(s[k])
    ensures j == |s| || !IsIdentChar(s[j])
    decreases |s| - i
  {
    if i < |s| && IsIdentChar(s[i]) then SkipIdent(s, i + 1) else i
  }

  /** The first newline at or after `i`, or the end of the line. */
  function LineEnd(s: string, i: nat): (j: nat)
    requires i <= |s|
    ensures i <= j <= |s|
    ensures forall k :: i <= k < j ==> s[k] != '\n'
    ensures j == |s| || s[j] == '\n'
    decreases |s| - i
  {
    if i < |s| && s[i] != '\n' then LineEnd(s, i + 1) else i
  }

  /** The last `;` in `s[lo..hi]`. */
  function LastSemicolon(s: string, lo: nat, hi: nat): (r: Option<nat>)
    requires lo <= hi <= |s|
    ensures r.Some? ==> lo <= r.value < hi && s[r.value] == ';' && forall k :: r.value < k < hi ==> s[k] != ';'
    ensures r.None? ==> forall k :: lo <= k < hi ==> s[k] != ';'
    decreases hi - lo
  {
    if hi == lo then None
    else if s[hi - 1] == ';' then Some(hi - 1)
    else LastSemicolon(s, lo, hi - 1)
  }

  /** `(.+);` tried with the value starting at `v`, then `v - 1`, ..., down to `lo`:
      the value start and the position of its `;`. */
  function FindValue(s: string, lo: nat, v: nat): (r: Option<(nat, nat)>)
    requires lo <= v <= |s|
    ensures r.Some? ==> lo <= r.value.0 <= v && r.value.0 < r.value.1 < |s| && s[r.value.1] == ';' &&
                        forall k :: r.value.0 <= k < r.value.1 ==> s[k] != '\n'
    decreases v - lo
  {
    var e := LineEnd(s, v);
    var p := if v < e then LastSemicolon(s, v + 1, e) else None;
    if p.Some? then Some((v, p.value))
    else if v == lo then None
    else FindValue(s, lo, v - 1)
  }

  /** The positions `re.match` reports for the declaration pattern, if it matches;
      every match it reports is one the pattern accepts. */
  function MatchPositions(line: string): (r: Option<Positions>)
    ensures r.Some? ==> Matches(line, r.value)
  {
    if !StartsWith(line, "global") then None
    else
      var j := SkipSpaces(line, 6);
      if j == 6 || j == |line| || !IsIdentStart(line[j]) then None
      else
        var k := SkipIdent(line, j + 1);
        var m := SkipSpaces(line, k);
        if m == |line| || line[m] != '=' then None
        else
          match FindValue(line, m + 1, SkipSpaces(line, m + 1))
          case None => None
          case Some((s, p)) => Some(Positions(j, k, m, s, p))
  }

  /** The two groups of the match: the declared name and the value text. */
  function MatchDeclaration(line: string): Option<(string, string)> {
    match MatchPositions(line)
    case None => None
    case Some(pos) => Some((line[pos.nameStart..pos.nameEnd], line[pos.valueStart..pos.semi]))
  }

  lemma {:induction false} FindValueComplete(s: string, lo: nat, v: nat, s0: nat, p0: nat)
    requires lo <= s0 <= v <= |s|
    requires s0 < p0 < |s| && s[p0] == ';'
    requires forall k :: s0 <= k < p0 ==> s[k] != '\n'
    ensures FindValue(s, lo, v).Some?
    ensures s0 <= FindValue(s, lo, v).value.0
    ensures s0 == FindValue(s, lo, v).value.0 ==> p0 <= FindValue(s, lo, v).value.1
    decreases v - lo
  {
    var e := LineEnd(s, v);
    if v == s0 {
      assert p0 < e;
      assert LastSemicolon(s, v + 1, e).Some?;
    } else if !(v < e && LastSemicolon(s, v + 1, e).Some?) {
      FindValueComplete(s, lo, v - 1, s0, p0);
    }
  }

  /** Everything before the value is determined by the line. */
  lemma PrefixForced(line: string, pos: Positions)
    requires Matches(line, pos)
    ensures SkipSpaces(line, 6) == pos.nameStart
    ensures SkipIdent(line, pos.nameStart + 1) == pos.nameEnd
    ensures SkipSpaces(line, pos.nameEnd) == pos.eq
  {
    assert !IsSpace(line[pos.nameStart]);
    assert forall i :: pos.nameStart + 1 <= i < pos.nameEnd ==>
      line[i] == line[pos.nameStart..pos.nameEnd][i - pos.nameStart];
    assert !IsIdentChar(line[pos.nameEnd]);
  }

  /** Whenever the pattern accepts some decomposition of the line, `re.match` matches,
      with the same name (the name is determined by the line) and with the value the
      regex engine prefers: the latest value start, and for it the last `;`. */
  lemma MatchComplete(line: string, pos: Positions)
    requires Matches(line, pos)
    ensures MatchPositions(line).Some?
    ensures MatchPositions(line).value.nameStart == pos.nameStart
    ensures MatchPositions(line).value.nameEnd == pos.nameEnd
    ensures MatchPositions(line).value.eq == pos.eq
    ensures pos.valueStart <= MatchPositions(line).value.valueStart
    ensures pos.valueStart == MatchPositions(line).value.valueStart ==> pos.semi <= MatchPositions(line).value.semi
  {
    var j, k, m := pos.nameStart, pos.nameEnd, pos.eq;
    PrefixForced(line, pos);
    assert line[j..k][0] == line[j];
    var w := SkipSpaces(line, m + 1);
    FindValueComplete(line, m + 1, w, pos.valueStart, pos.semi);
    MatchPositionsOf(line, j, k, m);
  }

  /** `MatchPositions` once the part before the value has been read. */
  lemma MatchPositionsOf(line: string, j: nat, k: nat, m: nat)
    requires 6 < j < k <= m < |line| && line[..6] == "global"
    requires SkipSpaces(line, 6) == j && IsIdentStart(line[j])
    requires SkipIdent(line, j + 1) == k && SkipSpaces(line, k) == m && line[m] == '='
    requires FindValue(line, m + 1, SkipSpaces(line, m + 1)).Some?
    ensures MatchPositions(line) ==
      Some(Positions(j, k, m, FindValue(line, m + 1, SkipSpaces(line, m + 1)).value.0,
                     FindValue(line, m + 1, SkipSpaces(line, m + 1)).value.1))
  {
    assert StartsWith(line, "global");
  }

  /** The value text of a match never holds a newline and is never empty. */
  lemma MatchDeclarationGroups(line: string)
    requires MatchDeclaration(line).Some?
    ensures IsIdentifier(MatchDeclaration(line).value.0)
    ensures MatchDeclaration(line).value.1 != [] && '\n' !in MatchDeclaration(line).value.1
  {
    var pos := MatchPositions(line).value;
    var value := line[pos.valueStart..pos.semi];
    assert forall i :: 0 <= i < |value| ==> value[i] == line[pos.valueStart + i];
  }

  /** The canonical form of a declaration, `global <name> = <value>;`. */
  function DeclarationLine(name: string, value: string): string {
    "global " + name + " = " + value + ";"
  }

  /** A declaration in canonical form, whose value starts with no whitespace and holds
      no newline and no `;`, matches with exactly that name and that value text. */
  lemma DeclarationLineMatches(name: string, value: string)
    requires IsIdentifier(name)
    requires value != [] && !IsSpace(value[0]) && '\n' !in value && ';' !in value
    ensures MatchDeclaration(DeclarationLine(name, value)) == Some((name, value))
  {
    var line := DeclarationLine(name, value);
    var n, v := |name|, |value|;
    DeclarationLineScan(name, value);
    MatchPositionsOf(line, 7, 7 + n, 8 + n);
    assert line[7..7 + n] == name && line[10 + n..10 + n + v] == value;
  }

  /** Reading a canonical declaration line: where each part of the pattern stops. */
  lemma DeclarationLineScan(name: string, value: string)
    requires IsIdentifier(name)
    requires value != [] && !IsSpace(value[0]) && '\n' !in value && ';' !in value
    ensures var line, n, v := DeclarationLine(name, value), |name|, |value|;
      |line| == 11 + n + v && line[..6] == "global" && IsIdentStart(line[7]) &&
      line[7..7 + n] == name && line[10 + n..10 + n + v] == value && line[8 + n] == '=' &&
      SkipSpaces(line, 6) == 7 && SkipIdent(line, 8) == 7 + n && SkipSpaces(line, 7 + n) == 8 + n &&
      SkipSpaces(line, 9 + n) == 10 + n && FindValue(line, 9 + n, 10 + n) == Some((10 + n, 10 + n + v))
  {
    var line := DeclarationLine(name, value);
    var n, v := |name|, |value|;
    DeclarationLineLayout(name, value);
    SkipIdentTo(line, 8, 7 + n);
    LineEndAtEnd(line, 10 + n);
    assert LastSemicolon(line, 11 + n, |line|) == Some(10 + n + v);
  }

  /** Where the characters of a canonical declaration line come from. */
  lemma DeclarationLineLayout(name: string, value: string)
    requires IsIdentifier(name) && value != [] && '\n' !in value && ';' !in value
    ensures var line, n, v := DeclarationLine(name, value), |name|, |value|;
      |line| == 11 + n + v && line[..6] == "global" && line[6] == ' ' &&
      line[7..7 + n] == name && line[10 + n..10 + n + v] == value &&
      line[7 + n] == ' ' && line[8 + n] == '=' && line[9 + n] == ' ' && line[10 + n + v] == ';' &&
      line[10 + n] == value[0] && IsIdentStart(line[7]) &&
      (forall i :: 8 <= i < 7 + n ==> IsIdentChar(line[i])) &&
      (forall i :: 10 + n <= i < |line| ==> line[i] != '\n')
  {
    var line := DeclarationLine(name, value);
    var n, v := |name|, |value|;
    assert line == "global " + name + " = " + value + ";";
    assert forall i :: 7 <= i < 7 + n ==> line[i] == name[i - 7];
    assert forall i :: 10 + n <= i < 10 + n + v ==> line[i] == value[i - (10 + n)];
  }

  lemma SkipIdentTo(s: string, i: nat, j: nat)
    requires i <= j < |s| && !IsIdentChar(s[j])
    requires forall k :: i <= k < j ==> IsIdentChar(s[k])
    ensures SkipIdent(s, i) == j
  {
  }

  lemma LineEndAtEnd(s: string, i: nat)
    requires i <= |s|
    requires forall k :: i <= k < |s| ==> s[k] != '\n'
    ensures LineEnd(s, i) == |s|
  {
  }
}
