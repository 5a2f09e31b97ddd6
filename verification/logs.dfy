/**
 * The text logs a lane appends after acquisition: one `item + ",\n"` line
 * per recorded item (timestamps, CPU readings, rotary lines).
 */
module Logs {
  import opened Outcomes
  import opened Strings

  /** The text written by `for item in items: f.write(item + ',\n')`. */
  function Serialise(items: seq<string>): string
  {
    if |items| == 0 then "" else items[0] + ",\n" + Serialise(items[1..])
  }

  /**
   * Reads a log back: every line ends in ",\n" and its item is the text
   * before the ','; text that does not end a line that way is rejected.
   */
  function ParseLog(text: string): (r: Option<seq<string>>)
    ensures text == "" ==> r == Some([])
    decreases |text|
  {
    if |text| == 0 then Some([])
    else
      match FirstIndexOf(text, '\n')
      case None => None
      case Some(k) =>
        if k == 0 || text[k - 1] != ',' then None
        else
          match ParseLog(text[k + 1..])
          case None => None
          case Some(rest) => Some([text[..k - 1]] + rest)
  }

  /** Appending to a log file: the text of a concatenation is the concatenation of the texts. */
  lemma {:induction false} SerialiseAppend(a: seq<string>, b: seq<string>)
    ensures Serialise(a + b) == Serialise(a) + Serialise(b)
  {
    if |a| > 0 {
      assert (a + b)[0] == a[0];
      assert (a + b)[1..] == a[1..] + b;
      SerialiseAppend(a[1..], b);
    } else {
      assert a + b == b;
    }
  }

  predicate NoNewlines(items: seq<string>)
  {
    forall i :: 0 <= i < |items| ==> '\n' !in items[i]
  }

  /** A log of items without line breaks reads back to exactly those items. */
  lemma {:induction false} ParseSerialise(items: seq<string>)
    requires NoNewlines(items)
    ensures ParseLog(Serialise(items)) == Some(items)
  {
    if |items| > 0 {
      var item := items[0];
      var rest := Serialise(items[1..]);
      var text := Serialise(items);
      assert text == item + ",\n" + rest;
      var k := |item| + 1;
      assert text[k] == '\n' && text[k - 1] == ',';
      assert '\n' !in text[..k] by {
        assert text[..k] == item + ",";
      }
      assert FirstIndexOf(text, '\n') == Some(k) by {
        FirstIndexOfUnique(text, '\n', k);
      }
      assert text[..k - 1] == item;
      assert text[k + 1..] == rest;
      assert NoNewlines(items[1..]) by {
        forall i | 0 <= i < |items| - 1
          ensures '\n' !in items[1..][i]
        {
          assert items[1..][i] == items[i + 1];
        }
      }
      ParseSerialise(items[1..]);
      assert [item] + items[1..] == items;
    }
  }

  /** A position holding `c` with no `c` before it is the first index of `c`. */
  lemma FirstIndexOfUnique(s: string, c: char, k: nat)
    requires k < |s| && s[k] == c && c !in s[..k]
    ensures FirstIndexOf(s, c) == Some(k)
  {
    var r := FirstIndexOf(s, c);
    assert c in s by {
      assert s[k] == c;
    }
    forall j | 0 <= j < k
      ensures s[j] != c
    {
      assert s[..k][j] == s[j];
    }
    forall j | 0 <= j < r.value
      ensures s[j] != c
    {
      assert s[..r.value][j] == s[j];
    }
  }

  /** One line per item: the log holds exactly as many line breaks as items. */
  lemma {:induction false} SerialiseLineCount(items: seq<string>)
    requires NoNewlines(items)
    ensures CountChar(Serialise(items), '\n') == |items|
  {
    if |items| > 0 {
      var item := items[0];
      assert NoNewlines(items[1..]) by {
        forall i | 0 <= i < |items| - 1
          ensures '\n' !in items[1..][i]
        {
          assert items[1..][i] == items[i + 1];
        }
      }
      SerialiseLineCount(items[1..]);
      CountCharAbsent(item, '\n');
      CountCharAppend(item, ",\n", '\n');
      CountCharAppend(item + ",\n", Serialise(items[1..]), '\n');
      assert CountChar(",\n", '\n') == 1 by {
        assert ",\n"[1..] == "\n";
        assert "\n"[1..] == "";
      }
    }
  }
}
