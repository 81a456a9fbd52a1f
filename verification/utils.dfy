/** `src/util/Utils.ts`: flattening a two-dimensional array and the extension
    of a file name. */
module Utils {
  import Text

  /** The rows of `rows` concatenated in order. */
  function Flatten<T>(rows: seq<seq<T>>): (flat: seq<T>)
  {
    if rows == [] then [] else Flatten(rows[..|rows| - 1]) + rows[|rows| - 1]
  }

  /** The sum of the lengths of the rows. */
  function SumLengths<T>(rows: seq<seq<T>>): nat
  {
    if rows == [] then 0 else SumLengths(rows[..|rows| - 1]) + |rows[|rows| - 1]|
  }

  /** `array2dToArray1d`: the nested loop pushes every element of every row,
      row by row, into a fresh local array, and reads its input only. */
  method Array2dToArray1d<T>(arr2d: seq<seq<T>>) returns (arr: seq<T>)
    ensures arr == Flatten(arr2d)
  {
    arr := [];
    for i := 0 to |arr2d|
      invariant arr == Flatten(arr2d[..i])
    {
      for j := 0 to |arr2d[i]|
        invariant arr == Flatten(arr2d[..i]) + arr2d[i][..j]
      {
        arr := arr + [arr2d[i][j]];
      }
      assert arr2d[..i + 1][..i] == arr2d[..i];
      assert arr2d[i][..|arr2d[i]|] == arr2d[i];
    }
    assert arr2d[..|arr2d|] == arr2d;
  }

  /** The flat array is as long as all rows together. */
  lemma {:induction false} FlattenLength<T>(rows: seq<seq<T>>)
    ensures |Flatten(rows)| == SumLengths(rows)
  {
    if rows != [] {
      FlattenLength(rows[..|rows| - 1]);
    }
  }

  /** Flattening distributes over concatenation of the row lists. */
  lemma {:induction false} FlattenAppend<T>(a: seq<seq<T>>, b: seq<seq<T>>)
    ensures Flatten(a + b) == Flatten(a) + Flatten(b)
  {
    if b == [] {
      assert a + b == a;
    } else {
      var init, last := b[..|b| - 1], b[|b| - 1];
      assert (a + b)[..|a + b| - 1] == a + init && (a + b)[|a + b| - 1] == last;
      FlattenAppend(a, init);
      calc {
        Flatten(a + b);
        Flatten(a + init) + last;
        (Flatten(a) + Flatten(init)) + last;
        Flatten(a) + (Flatten(init) + last);
        Flatten(a) + Flatten(b);
      }
    }
  }

  /** Element `j` of row `i` lands at the number of elements in the rows
      before `i`, plus `j`: the rows are concatenated in order. */
  lemma FlattenAt<T>(rows: seq<seq<T>>, i: nat, j: nat)
    requires i < |rows| && j < |rows[i]|
    ensures SumLengths(rows[..i]) + j < |Flatten(rows)|
    ensures Flatten(rows)[SumLengths(rows[..i]) + j] == rows[i][j]
  {
    assert rows == rows[..i] + [rows[i]] + rows[i + 1..];
    FlattenAppend(rows[..i] + [rows[i]], rows[i + 1..]);
    FlattenAppend(rows[..i], [rows[i]]);
    assert Flatten([rows[i]]) == rows[i] by {
      assert [rows[i]][..0] == [];
    }
    FlattenLength(rows[..i]);
  }

  /** An empty row contributes nothing, wherever it stands. */
  lemma FlattenSkipsEmptyRow<T>(before: seq<seq<T>>, after: seq<seq<T>>)
    ensures Flatten(before + [[]] + after) == Flatten(before + after)
  {
    FlattenAppend(before + [[]], after);
    FlattenAppend(before, after);
    assert (before + [[]])[..|before|] == before;
  }

  /** `getFileExtension`: `name.split('.').pop()`, or `''` when that is falsy. */
  function GetFileExtension(name: string): (extension: string)
    ensures '.' !in extension
  {
    var parts := Text.Split(name, '.');
    var last := parts[|parts| - 1];
    assert last in parts;
    if |last| > 0 then last else ""
  }

  /** The extension is a suffix of the file name and contains no dot. */
  lemma GetFileExtensionIsDotFreeSuffix(name: string)
    ensures '.' !in GetFileExtension(name)
    ensures |GetFileExtension(name)| <= |name|
    ensures name[|name| - |GetFileExtension(name)|..] == GetFileExtension(name)
  {
    var parts := Text.Split(name, '.');
    var last := parts[|parts| - 1];
    assert GetFileExtension(name) == last;
    assert last in parts;
    Text.JoinSplit(name, '.');
    Text.JoinEndsWithLast(parts, '.');
  }

  /** A name without a dot is its own extension. */
  lemma GetFileExtensionWithoutDot(name: string)
    requires '.' !in name
    ensures GetFileExtension(name) == name
  {
    Text.SplitWithoutSeparator(name, '.');
  }

  /** The text after the last dot is the extension; a trailing dot or an
      empty name gives the empty extension. */
  lemma GetFileExtensionAfterLastDot(base: string, extension: string)
    requires '.' !in extension
    ensures GetFileExtension(base + "." + extension) == extension
    ensures GetFileExtension(base + ".") == ""
    ensures GetFileExtension("") == ""
  {
    Text.SplitAppend(base, '.', extension);
    Text.SplitWithoutSeparator(extension, '.');
    Text.SplitAppend(base, '.', "");
    assert base + "." + "" == base + ".";
  }
}
