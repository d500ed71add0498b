/** `utils/_misc.py`: `join`, which drops missing items and can put a
    different word before the last item. */
module MiscUtils {
  import opened Wrappers
  import opened Strings

  /** The items that are not None, in order. */
  function Present(args: seq<Option<string>>): (r: seq<string>)
    ensures |r| <= |args|
    ensures forall s :: s in r <==> Some(s) in args
    decreases |args|
  {
    if |args| == 0 then []
    else
      var rest := Present(args[1..]);
      assert forall s :: Some(s) in args <==> Some(s) == args[0] || Some(s) in args[1..];
      match args[0]
      case None => rest
      case Some(s) => [s] + rest
  }

  function Join(args: seq<Option<string>>, sep: string, lastSep: Option<string>): (r: string)
    ensures |Present(args)| == 0 ==> r == ""
    ensures |Present(args)| == 1 ==> r == Present(args)[0]
  {
    var items := Present(args);
    if |items| == 0 then ""
    else if |items| == 1 then items[0]
    else if lastSep.None? then JoinWith(sep, items)
    else JoinWith(sep, items[..|items| - 1]) + " " + lastSep.value + " " + items[|items| - 1]
  }

  /** Without a last separator the items are joined with `sep` throughout; with
      one, only the final separator differs — it becomes `" " + lastSep + " "`. */
  lemma LastSepReplacesFinalSeparator(args: seq<Option<string>>, sep: string, lastSep: string)
    requires |Present(args)| >= 2
    ensures var items := Present(args);
            var head := JoinWith(sep, items[..|items| - 1]);
            && Join(args, sep, None) == head + sep + items[|items| - 1]
            && Join(args, sep, Some(lastSep)) == head + " " + lastSep + " " + items[|items| - 1]
  {
    var items := Present(args);
    assert items == items[..|items| - 1] + [items[|items| - 1]];
    JoinWithSnoc(sep, items[..|items| - 1], items[|items| - 1]);
  }

  /** Missing items never matter: joining the present ones gives the same text. */
  lemma {:induction false} JoinIgnoresMissing(args: seq<Option<string>>, sep: string, lastSep: Option<string>)
    ensures Join(args, sep, lastSep) == Join(Wrap(Present(args)), sep, lastSep)
  {
    PresentOfWrap(Present(args));
  }

  function Wrap(items: seq<string>): (r: seq<Option<string>>)
    ensures |r| == |items|
  {
    seq(|items|, k requires 0 <= k < |items| => Some(items[k]))
  }

  lemma {:induction false} PresentOfWrap(items: seq<string>)
    ensures Present(Wrap(items)) == items
    decreases |items|
  {
    if |items| > 0 {
      assert Wrap(items)[1..] == Wrap(items[1..]);
      PresentOfWrap(items[1..]);
    }
  }

  /** The separator the bot's callers pass already carries spaces, so the
      joined error list shows them doubled. */
  lemma CallersGetDoubledSpaces()
    ensures Join([Some("a"), Some("b"), Some("c")], ", ", Some(" and ")) == "a, b  and  c"
  {
    JoinOfThree("a", "b", "c", ", ", " and ");
    assert "a" + ", " + "b" + " " + " and " + " " + "c" == "a, b  and  c";
  }

  /** Three present items with a last separator. */
  lemma JoinOfThree(a: string, b: string, c: string, sep: string, lastSep: string)
    ensures Join([Some(a), Some(b), Some(c)], sep, Some(lastSep)) == a + sep + b + " " + lastSep + " " + c
  {
    var args := [Some(a), Some(b), Some(c)];
    var items := [a, b, c];
    assert Present(args) == items by {
      assert args[1..] == [Some(b), Some(c)] && args[2..] == [Some(c)] && args[3..] == [];
      assert Present(args[2..]) == [c];
      assert Present(args[1..]) == [b, c];
    }
    assert items[..2] == [a, b] && [a, b][1..] == [b];
    assert JoinWith(sep, [a, b]) == a + sep + b;
  }
}
