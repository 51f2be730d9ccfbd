/** Writing an instance as text: a header line, then one line per pair of adjacency row
    and table row, each holding the row's variable indices followed by its values. */
module Layout {
  import opened Indices
  import opened Text

  /** The stand-in for four-decimal float formatting: the tokens it writes hold no space
      and no newline. */
  ghost predicate ValidFormat(fmt: real -> string) {
    forall x :: ' ' !in fmt(x) && '\n' !in fmt(x)
  }

  lemma FormatAvoids(fmt: real -> string, x: real)
    requires ValidFormat(fmt)
    ensures ' ' !in fmt(x) && '\n' !in fmt(x)
  {
  }

  /** Each link of a row, zero-padded to three digits. */
  function IndexTokens(links: Row): (ts: seq<string>)
    ensures |ts| == |links|
    ensures forall a :: 0 <= a < |links| ==> ts[a] == ZeroPad(links[a], 3)
  {
    seq(|links|, a requires 0 <= a < |links| => ZeroPad(links[a], 3))
  }

  /** Every index token is a digit string of at least 3 characters that reads back as
      the index it was written for. */
  lemma IndexTokensRead(links: Row)
    ensures forall a :: 0 <= a < |links| ==>
      var token := IndexTokens(links)[a];
      AllDigits(token) && |token| >= 3 && ParseDecimal(token) == links[a]
  {
    forall a | 0 <= a < |links| {
      ZeroPadFacts(links[a], 3);
    }
  }

  /** Each value of a table row, formatted. */
  function ValueTokens(fits: seq<real>, fmt: real -> string): (ts: seq<string>)
    ensures |ts| == |fits|
    ensures forall f :: 0 <= f < |fits| ==> ts[f] == fmt(fits[f])
  {
    seq(|fits|, f requires 0 <= f < |fits| => fmt(fits[f]))
  }

  /** The line written for one row, without its newline. */
  function LineText(links: Row, fits: seq<real>, fmt: real -> string): string {
    Join(' ', IndexTokens(links)) + " " + Join(' ', ValueTokens(fits, fmt))
  }

  /** The lines written for the first `m` pairs of `zip(adjacency, table)`. */
  function Body(adj: Adjacency, table: seq<seq<real>>, fmt: real -> string, m: nat): string
    requires m <= |adj| && m <= |table|
  {
    if m == 0 then [] else Body(adj, table, fmt, m - 1) + LineText(adj[m - 1], table[m - 1], fmt) + "\n"
  }

  /** How many pairs `zip(adjacency, table)` yields: as many as the shorter of the two has. */
  function Zipped(adj: Adjacency, table: seq<seq<real>>): nat {
    if |adj| < |table| then |adj| else |table|
  }

  /** The `result +=` loop of `Create_Instance`: the header, then one line per pair of
      `zip(adjacency, table)`, which stops at the shorter of the two. */
  method Render(header: string, adj: Adjacency, table: seq<seq<real>>, fmt: real -> string)
    returns (result: string)
    ensures result == header + Body(adj, table, fmt, Zipped(adj, table))
  {
    result := header;
    var pairs := if |adj| < |table| then |adj| else |table|;
    var i := 0;
    while i < pairs
      invariant i <= pairs
      invariant result == header + Body(adj, table, fmt, i)
    {
      var indices, values := Join(' ', IndexTokens(adj[i])), Join(' ', ValueTokens(table[i], fmt));
      RenderStep(header, adj, table, fmt, i, result, indices, values);
      result := result + indices;
      result := result + " " + values + "\n";
      i := i + 1;
    }
  }

  /** The two appends of one loop iteration add exactly the row's line. */
  lemma RenderStep(header: string, adj: Adjacency, table: seq<seq<real>>, fmt: real -> string, i: nat,
                   before: string, indices: string, values: string)
    requires i < |adj| && i < |table| && before == header + Body(adj, table, fmt, i)
    requires indices == Join(' ', IndexTokens(adj[i])) && values == Join(' ', ValueTokens(table[i], fmt))
    ensures before + indices + " " + values + "\n" == header + Body(adj, table, fmt, i + 1)
  {
    assert Body(adj, table, fmt, i + 1) == Body(adj, table, fmt, i) + (indices + " " + values) + "\n";
    Regroup(header, Body(adj, table, fmt, i), indices, values);
  }

  /** Appending a line piece by piece is appending the whole line. */
  lemma Regroup(header: string, body: string, indices: string, values: string)
    ensures header + body + indices + " " + values + "\n" == header + (body + (indices + " " + values) + "\n")
  {
    var line := indices + " " + values;
    assert header + body + indices + " " + values == header + body + line;
    assert header + body + line + "\n" == header + (body + line + "\n");
  }

  /** The lines of the text, one per rendered row. */
  function Lines(adj: Adjacency, table: seq<seq<real>>, fmt: real -> string, m: nat): (ls: seq<string>)
    requires m <= |adj| && m <= |table|
    ensures |ls| == m
  {
    seq(m, i requires 0 <= i < m => LineText(adj[i], table[i], fmt))
  }

  lemma IndexTokensAvoid(links: Row, c: char)
    requires !IsDigit(c)
    ensures forall a :: 0 <= a < |links| ==> c !in IndexTokens(links)[a]
  {
    forall a | 0 <= a < |links| ensures c !in IndexTokens(links)[a] {
      ZeroPadFacts(links[a], 3);
      DigitsAvoid(ZeroPad(links[a], 3), c);
    }
  }

  /** A line splits at its spaces into the row's index tokens followed by its value tokens,
      and holds no newline. */
  lemma LineTokens(links: Row, fits: seq<real>, fmt: real -> string)
    requires ValidFormat(fmt) && |links| >= 1 && |fits| >= 1
    ensures Split(' ', LineText(links, fits, fmt)) == IndexTokens(links) + ValueTokens(fits, fmt)
    ensures '\n' !in LineText(links, fits, fmt)
  {
    var idx, vals := IndexTokens(links), ValueTokens(fits, fmt);
    JoinAppend(' ', idx, vals);
    IndexTokensAvoid(links, ' ');
    IndexTokensAvoid(links, '\n');
    forall t | 0 <= t < |idx + vals| ensures ' ' !in (idx + vals)[t] && '\n' !in (idx + vals)[t] {
      if t >= |idx| {
        assert (idx + vals)[t] == fmt(fits[t - |idx|]);
        FormatAvoids(fmt, fits[t - |idx|]);
      } else {
        assert (idx + vals)[t] == idx[t];
        assert ' ' !in idx[t];
        assert '\n' !in idx[t];
      }
    }
    SplitJoin(' ', idx + vals);
    JoinAvoids(' ', idx + vals, '\n');
  }

  lemma SplitLineStep(before: string, line: string, rest: string, ls: seq<string>)
    requires '\n' !in line
    requires Split('\n', before + (line + "\n" + rest)) == ls + Split('\n', line + "\n" + rest)
    ensures Split('\n', before + line + "\n" + rest) == ls + [line] + Split('\n', rest)
  {
    SplitPiece('\n', line, rest);
    assert before + line + "\n" + rest == before + (line + "\n" + rest);
  }

  /** Splitting the rendered rows at newlines gives their lines, whatever follows them. */
  lemma {:induction false} BodyLines(adj: Adjacency, table: seq<seq<real>>, fmt: real -> string, m: nat, rest: string)
    requires ValidFormat(fmt) && m <= |adj| && m <= |table|
    requires forall i :: 0 <= i < m ==> |adj[i]| >= 1 && |table[i]| >= 1
    ensures Split('\n', Body(adj, table, fmt, m) + rest) == Lines(adj, table, fmt, m) + Split('\n', rest)
  {
    if m > 0 {
      var m' := m - 1;
      var line := LineText(adj[m'], table[m'], fmt);
      LineTokens(adj[m'], table[m'], fmt);
      BodyLines(adj, table, fmt, m', line + "\n" + rest);
      SplitLineStep(Body(adj, table, fmt, m'), line, rest, Lines(adj, table, fmt, m'));
      LinesSnoc(adj, table, fmt, m', m);
    } else {
      assert Body(adj, table, fmt, m) + rest == rest;
      assert Lines(adj, table, fmt, m) + Split('\n', rest) == Split('\n', rest);
    }
  }

  /** One more row adds its line to the body and to the lines. */
  lemma LinesSnoc(adj: Adjacency, table: seq<seq<real>>, fmt: real -> string, m': nat, m: nat)
    requires m == m' + 1 && m <= |adj| && m <= |table|
    ensures Body(adj, table, fmt, m) == Body(adj, table, fmt, m') + LineText(adj[m'], table[m'], fmt) + "\n"
    ensures Lines(adj, table, fmt, m) == Lines(adj, table, fmt, m') + [LineText(adj[m'], table[m'], fmt)]
  {
    assert Lines(adj, table, fmt, m) == Lines(adj, table, fmt, m') + [LineText(adj[m'], table[m'], fmt)];
  }

  /** The whole text is the header line, one line per rendered row, and the empty piece
      after the final newline: `1 + m` newline-terminated lines; line `i + 1` splits at its
      spaces into the index tokens of row `i` followed by its value tokens. */
  lemma TextLayout(headerLine: string, adj: Adjacency, table: seq<seq<real>>, fmt: real -> string, m: nat)
    requires ValidFormat(fmt) && m <= |adj| && m <= |table| && '\n' !in headerLine
    requires forall i :: 0 <= i < m ==> |adj[i]| >= 1 && |table[i]| >= 1
    ensures Split('\n', headerLine + "\n" + Body(adj, table, fmt, m)) ==
      [headerLine] + Lines(adj, table, fmt, m) + [[]]
    ensures forall i :: 0 <= i < m ==>
      Split(' ', Split('\n', headerLine + "\n" + Body(adj, table, fmt, m))[i + 1]) ==
      IndexTokens(adj[i]) + ValueTokens(table[i], fmt)
  {
    TextLines(headerLine + "\n" + Body(adj, table, fmt, m), headerLine, adj, table, fmt, m);
    LinesSplit(Split('\n', headerLine + "\n" + Body(adj, table, fmt, m)), headerLine, adj, table, fmt, m);
  }

  /** The text splits at its newlines into the header line, the rendered rows and the empty
      piece after the final newline. */
  lemma TextLines(text: string, headerLine: string, adj: Adjacency, table: seq<seq<real>>, fmt: real -> string, m: nat)
    requires ValidFormat(fmt) && m <= |adj| && m <= |table| && '\n' !in headerLine
    requires forall i :: 0 <= i < m ==> |adj[i]| >= 1 && |table[i]| >= 1
    requires text == headerLine + "\n" + Body(adj, table, fmt, m)
    ensures Split('\n', text) == [headerLine] + Lines(adj, table, fmt, m) + [[]]
  {
    SplitPiece('\n', headerLine, Body(adj, table, fmt, m));
    BodyLines(adj, table, fmt, m, []);
    assert Body(adj, table, fmt, m) + [] == Body(adj, table, fmt, m);
  }

  /** Each rendered line splits at its spaces into its row's tokens. */
  lemma LinesSplit(lines: seq<string>, headerLine: string, adj: Adjacency, table: seq<seq<real>>,
                   fmt: real -> string, m: nat)
    requires ValidFormat(fmt) && m <= |adj| && m <= |table|
    requires forall i :: 0 <= i < m ==> |adj[i]| >= 1 && |table[i]| >= 1
    requires lines == [headerLine] + Lines(adj, table, fmt, m) + [[]]
    ensures forall i :: 0 <= i < m ==> Split(' ', lines[i + 1]) == IndexTokens(adj[i]) + ValueTokens(table[i], fmt)
  {
    forall i | 0 <= i < m
      ensures Split(' ', lines[i + 1]) == IndexTokens(adj[i]) + ValueTokens(table[i], fmt)
    {
      assert lines[i + 1] == LineText(adj[i], table[i], fmt);
      LineTokens(adj[i], table[i], fmt);
    }
  }

  /** A header of digit fields joined by spaces splits back into its fields and holds no newline. */
  lemma DigitFields(fields: seq<string>)
    requires |fields| >= 1
    requires forall t :: 0 <= t < |fields| ==> AllDigits(fields[t])
    ensures Split(' ', Join(' ', fields)) == fields
    ensures '\n' !in Join(' ', fields)
  {
    forall t | 0 <= t < |fields| ensures ' ' !in fields[t] && '\n' !in fields[t] {
      DigitsAvoid(fields[t], ' ');
      DigitsAvoid(fields[t], '\n');
    }
    SplitJoin(' ', fields);
    JoinAvoids(' ', fields, '\n');
  }
}
