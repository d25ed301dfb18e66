/** A dictionary filled line by line: the shape shared by the scripts and
    services that scan /proc/meminfo, /etc/os-release or a command's output
    and store one entry per recognised line. What a single line contributes
    is a parameter, so the facts here hold for every such scan. */
module LineTables {
  import opened Wrappers

  /** What one line contributes: nothing, an entry (overwriting an earlier
      one with the same key), or an exception that abandons the scan. */
  datatype LineEffect<V> = Skip | Entry(key: string, value: V) | Fail

  /** The dictionary after scanning `lines` in order, or `None` when a line
      raised. */
  function Table<V>(lines: seq<string>, effect: string -> LineEffect<V>): Option<map<string, V>> {
    if |lines| == 0 then Some(map[])
    else
      match Table(lines[..|lines| - 1], effect)
      case None => None
      case Some(t) =>
        match effect(lines[|lines| - 1])
        case Skip => Some(t)
        case Fail => None
        case Entry(k, v) => Some(t[k := v])
  }

  /** The scan fails exactly when some line raises. */
  lemma {:induction false} TableFails<V>(lines: seq<string>, effect: string -> LineEffect<V>)
    ensures Table(lines, effect).None? <==> exists i :: 0 <= i < |lines| && effect(lines[i]).Fail?
  {
    if |lines| > 0 {
      var init := lines[..|lines| - 1];
      TableFails(init, effect);
      if exists i :: 0 <= i < |init| && effect(init[i]).Fail? {
        var i :| 0 <= i < |init| && effect(init[i]).Fail?;
        assert lines[i] == init[i];
      }
      if exists i :: 0 <= i < |lines| && effect(lines[i]).Fail? {
        var i :| 0 <= i < |lines| && effect(lines[i]).Fail?;
        if i < |init| {
          assert lines[i] == init[i];
        }
      }
    }
  }

  /** When the scan succeeds, a key is present exactly when some line gives
      it. */
  lemma {:induction false} TableHasKey<V>(lines: seq<string>, effect: string -> LineEffect<V>, key: string)
    requires Table(lines, effect).Some?
    ensures key in Table(lines, effect).value <==>
      exists i :: 0 <= i < |lines| && effect(lines[i]).Entry? && effect(lines[i]).key == key
  {
    if |lines| > 0 {
      var init := lines[..|lines| - 1];
      TableHasKey(init, effect, key);
      if exists i :: 0 <= i < |init| && effect(init[i]).Entry? && effect(init[i]).key == key {
        var i :| 0 <= i < |init| && effect(init[i]).Entry? && effect(init[i]).key == key;
        assert lines[i] == init[i];
      }
      if exists i :: 0 <= i < |lines| && effect(lines[i]).Entry? && effect(lines[i]).key == key {
        var i :| 0 <= i < |lines| && effect(lines[i]).Entry? && effect(lines[i]).key == key;
        if i < |init| {
          assert lines[i] == init[i];
        }
      }
    }
  }

  /** Every stored value was given by some line under its key. */
  lemma {:induction false} TableValueFromLine<V>(lines: seq<string>, effect: string -> LineEffect<V>, key: string)
    requires Table(lines, effect).Some? && key in Table(lines, effect).value
    ensures exists i :: 0 <= i < |lines| && effect(lines[i]) == Entry(key, Table(lines, effect).value[key])
  {
    var init := lines[..|lines| - 1];
    var last := lines[|lines| - 1];
    if effect(last) == Entry(key, Table(lines, effect).value[key]) {
      assert effect(lines[|lines| - 1]) == Entry(key, Table(lines, effect).value[key]);
    } else {
      assert Table(init, effect).value[key] == Table(lines, effect).value[key];
      TableValueFromLine(init, effect, key);
      var i :| 0 <= i < |init| && effect(init[i]) == Entry(key, Table(init, effect).value[key]);
      assert lines[i] == init[i];
    }
  }

  /** The value stored for a key is the one from the last line that gives
      it: later lines overwrite earlier ones. */
  lemma {:induction false} TableLastWins<V>(lines: seq<string>, effect: string -> LineEffect<V>, i: nat)
    requires i < |lines| && effect(lines[i]).Entry?
    requires forall j :: i < j < |lines| ==> !(effect(lines[j]).Entry? && effect(lines[j]).key == effect(lines[i]).key)
    requires Table(lines, effect).Some?
    ensures effect(lines[i]).key in Table(lines, effect).value
    ensures Table(lines, effect).value[effect(lines[i]).key] == effect(lines[i]).value
  {
    if i < |lines| - 1 {
      var init := lines[..|lines| - 1];
      assert init[i] == lines[i];
      TableLastWins(init, effect, i);
    }
  }

  /** Scanning one more line: what the table of the first `i + 1` lines is,
      given the table of the first `i` and the effect of line `i`. */
  lemma TableStep<V>(lines: seq<string>, effect: string -> LineEffect<V>, i: nat)
    requires i < |lines|
    ensures Table(lines[..i], effect).None? || effect(lines[i]).Fail? ==> Table(lines[..i + 1], effect).None?
    ensures Table(lines[..i], effect).Some? && effect(lines[i]).Skip? ==>
      Table(lines[..i + 1], effect) == Table(lines[..i], effect)
    ensures Table(lines[..i], effect).Some? && effect(lines[i]).Entry? ==>
      Table(lines[..i + 1], effect) == Some(Table(lines[..i], effect).value[effect(lines[i]).key := effect(lines[i]).value])
  {
    assert lines[..i + 1][..i] == lines[..i];
    assert lines[..i + 1][i] == lines[i];
  }

  /** Once a prefix of the lines fails, the whole scan does. */
  lemma {:induction false} TablePrefixFails<V>(lines: seq<string>, effect: string -> LineEffect<V>, n: nat)
    requires n <= |lines| && Table(lines[..n], effect).None?
    ensures Table(lines, effect).None?
    decreases |lines| - n
  {
    if n < |lines| {
      assert lines[..n + 1][..n] == lines[..n];
      TablePrefixFails(lines, effect, n + 1);
    } else {
      assert lines[..n] == lines;
    }
  }
}
