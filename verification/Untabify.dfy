/** Tab expansion of displayed lines, against its definition column by column and
    against the fast form that only computes the length. */
module Untabify {
  import opened Bytes

  const TAB_STOP := 8

  function Spaces(n: nat): (s: string)
    ensures |s| == n && forall i :: 0 <= i < n ==> s[i] == ' '
  {
    seq(n, _ => ' ')
  }

  /** How far a tab at this column reaches. */
  function Width(column: nat): (n: nat)
    ensures 1 <= n <= TAB_STOP && (column + n) % TAB_STOP == 0
  {
    TAB_STOP - column % TAB_STOP
  }

  /** What a line looks like when it starts at this column. */
  function Expand(line: string, column: nat): (shown: string) {
    if line == [] then []
    else if line[0] == '\t' then Spaces(Width(column)) + Expand(line[1..], column + Width(column))
    else [if line[0] == 0 as char then ' ' else line[0]] + Expand(line[1..], column + 1)
  }

  predicate Plain(s: string) {
    forall i :: 0 <= i < |s| ==> s[i] != '\t' && s[i] != 0 as char
  }

  lemma {:induction false} ExpandPlain(s: string, column: nat)
    requires Plain(s)
    ensures Expand(s, column) == s
  {
    if s != [] {
      ExpandPlain(s[1..], column + 1);
      assert s == [s[0]] + s[1..];
    }
  }

  lemma {:induction false} ExpandedIsPlain(s: string, column: nat)
    ensures Plain(Expand(s, column))
  {
    if s != [] {
      ExpandedIsPlain(s[1..], column + if s[0] == '\t' then Width(column) else 1);
    }
  }

  /** The second half of a line goes on at the column where the first half ends. */
  lemma {:induction false} ExpandConcat(a: string, b: string, column: nat)
    ensures Expand(a + b, column) == Expand(a, column) + Expand(b, column + |Expand(a, column)|)
  {
    if a == [] {
      assert a + b == b;
    } else {
      var step := if a[0] == '\t' then Width(column) else 1;
      assert (a + b)[1..] == a[1..] + b;
      ExpandConcat(a[1..], b, column + step);
    }
  }

  function WithoutNul(s: string): (t: string)
    ensures |t| == |s| && forall i :: 0 <= i < |s| ==> t[i] == if s[i] == 0 as char then ' ' else s[i]
  {
    seq(|s|, i requires 0 <= i < |s| => if s[i] == 0 as char then ' ' else s[i])
  }

  lemma {:induction false} NulIsSpace(s: string, column: nat)
    ensures Expand(WithoutNul(s), column) == Expand(s, column)
  {
    if s != [] {
      assert WithoutNul(s)[1..] == WithoutNul(s[1..]);
      NulIsSpace(s[1..], column + if s[0] == '\t' then Width(column) else 1);
    }
  }

  /** Replacing the first tab by its spaces does not change what is shown. */
  lemma FirstTab(a: string, b: string, column: nat)
    requires Plain(a)
    ensures Expand(a + ['\t'] + b, column) == Expand(a + Spaces(Width(column + |a|)) + b, column)
  {
    hide Width, Spaces;
    var spaces := Spaces(Width(column + |a|));
    ExpandPlain(a, column);
    ExpandPlain(spaces, column + |a|);
    ExpandConcat(a, ['\t'], column);
    ExpandConcat(a, spaces, column);
    assert Expand(['\t'], column + |a|) == spaces + Expand([], column + |a| + |spaces|) by { assert ['\t'][1..] == []; }
    assert Expand(a + ['\t'], column) == a + spaces == Expand(a + spaces, column);
    ExpandConcat(a + ['\t'], b, column);
    ExpandConcat(a + spaces, b, column);
  }

  /** untabify: rewrites the line in place, tab by tab. */
  method Untabify(line: string, initialPosition: nat) returns (shown: string)
    ensures shown == Expand(line, initialPosition)
  {
    hide Expand, Spaces, Width;
    shown := WithoutNul(line);
    NulIsSpace(line, initialPosition);
    var position := Find(shown, '\t');
    while position < |shown|
      invariant 0 <= position <= |shown| && Plain(shown[..position])
      invariant position < |shown| ==> shown[position] == '\t'
      invariant forall i :: 0 <= i < |shown| ==> shown[i] != 0 as char
      invariant Expand(shown, initialPosition) == Expand(line, initialPosition)
      decreases |shown| - position
    {
      shown, position := ReplaceTab(shown, position, initialPosition);
    }
    assert shown[..position] == shown;
    ExpandPlain(shown, initialPosition);
  }

  /** One round: the tab becomes spaces, and the search goes on where it stood. */
  method ReplaceTab(line: string, position: nat, initialPosition: nat) returns (shown: string, next: nat)
    requires position < |line| && line[position] == '\t' && Plain(line[..position])
    requires forall i :: 0 <= i < |line| ==> line[i] != 0 as char
    ensures next <= |shown| && Plain(shown[..next]) && (next < |shown| ==> shown[next] == '\t')
    ensures forall i :: 0 <= i < |shown| ==> shown[i] != 0 as char
    ensures Expand(shown, initialPosition) == Expand(line, initialPosition)
    ensures |shown| - next < |line| - position
  {
    hide Expand, Width, Plain;
    var spaces := TAB_STOP - (initialPosition + position) % TAB_STOP;
    WidthIs(initialPosition + position);
    ghost var a, b := line[..position], line[position + 1..];
    FirstTab(a, b, initialPosition);
    assert line == a + ['\t'] + b;
    var blank := Spaces(spaces);
    shown := line[..position] + blank + line[position + 1..];
    var found := Find(shown[position..], '\t');
    NextTab(a, blank, b, found);
    next := position + found;
  }

  lemma WidthIs(column: nat)
    ensures Width(column) == TAB_STOP - column % TAB_STOP
  {
  }

  lemma NextTab(a: string, spaces: string, b: string, next: nat)
    requires Plain(a) && spaces != [] && forall i :: 0 <= i < |spaces| ==> spaces[i] == ' '
    requires forall i :: 0 <= i < |b| ==> b[i] != 0 as char
    requires next == Find((a + spaces + b)[|a|..], '\t')
    ensures |spaces| <= next <= |spaces| + |b| && Plain((a + spaces + b)[..|a| + next])
  {
    var rest := (a + spaces + b)[|a|..];
    assert rest == spaces + b;
    assert forall i :: 0 <= i < next ==> rest[..next][i] == rest[i];
    assert forall i :: 0 <= i < |spaces| ==> rest[i] == ' ';
    var shown := (a + spaces + b)[..|a| + next];
    forall i | 0 <= i < |shown|
      ensures shown[i] != '\t' && shown[i] != 0 as char
    {
      if i >= |a| {
        assert shown[i] == rest[..next][i - |a|];
      }
    }
  }

  /** getUntabifiedLength: the length of the expansion from column zero. */
  method UntabifiedLength(line: string) returns (length: nat)
    ensures length == |Expand(line, 0)|
  {
    hide Expand, Width, Spaces;
    var totalSpaces, tabPosition := 0, Find(line, '\t');
    PlainLength(line[..tabPosition], 0);
    while tabPosition < |line|
      invariant 0 <= tabPosition <= |line| && (tabPosition < |line| ==> line[tabPosition] == '\t')
      invariant tabPosition + totalSpaces == |Expand(line[..tabPosition], 0)|
    {
      var spaces := TAB_STOP - (tabPosition + totalSpaces) % TAB_STOP - 1;
      var next := tabPosition + 1 + Find(line[tabPosition + 1..], '\t');
      var between := line[tabPosition + 1..][..next - tabPosition - 1];
      assert line[..tabPosition + 1] == line[..tabPosition] + ['\t'];
      assert line[..next] == line[..tabPosition + 1] + between;
      ExpandConcat(line[..tabPosition], ['\t'], 0);
      TabLength(tabPosition + totalSpaces);
      ExpandConcat(line[..tabPosition + 1], between, 0);
      PlainLength(between, tabPosition + totalSpaces + spaces + 1);
      totalSpaces := totalSpaces + spaces;
      tabPosition := next;
    }
    assert line[..tabPosition] == line;
    return |line| + totalSpaces;
  }

  lemma TabLength(column: nat)
    ensures |Expand(['\t'], column)| == TAB_STOP - column % TAB_STOP
  {
    assert ['\t'][1..] == [];
  }

  lemma {:induction false} PlainLength(s: string, column: nat)
    requires '\t' !in s
    ensures |Expand(s, column)| == |s|
  {
    if s != [] {
      PlainLength(s[1..], column + 1);
    }
  }
}
