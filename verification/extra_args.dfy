/** The loop of `parse_args` (src/utils/args_parser.py) that turns the
    arguments argparse did not recognise into the `extra` dictionary:
    `--k v` sets k to the string v, a `--k` with no value sets k to True,
    and any other token is skipped. */
module ExtraArgs {

  /** A value of `extra`: Python's True, or the token that followed the flag. */
  datatype ArgValue = Flag | Text(s: string)

  predicate IsFlag(tok: string) {
    |tok| >= 2 && tok[..2] == "--"
  }

  /** The key a flag sets: the token without its leading "--". */
  function Key(tok: string): string
    requires IsFlag(tok)
  {
    tok[2..]
  }

  /** What the flag at position j assigns: the next token when there is one
      and it is not itself a flag, True otherwise. */
  function ValueAt(ts: seq<string>, j: nat): ArgValue
    requires j < |ts|
  {
    if j + 1 < |ts| && !IsFlag(ts[j + 1]) then Text(ts[j + 1]) else Flag
  }

  /** The dictionary as the flags among the first n tokens describe it: each
      flag assigns its value in turn, so a later flag for the same key wins. */
  function Assigned(ts: seq<string>, n: nat): map<string, ArgValue>
    requires n <= |ts|
  {
    if n == 0 then map[]
    else if IsFlag(ts[n - 1]) then Assigned(ts, n - 1)[Key(ts[n - 1]) := ValueAt(ts, n - 1)]
    else Assigned(ts, n - 1)
  }

  function Extra(ts: seq<string>): map<string, ArgValue> {
    Assigned(ts, |ts|)
  }

  /** The `while i < len(unknown)` loop. A value token is consumed together
      with its flag; every other step moves on by one token. */
  method ParseExtra(unknown: seq<string>) returns (extra: map<string, ArgValue>)
    ensures extra == Extra(unknown)
  {
    extra := map[];
    var i := 0;
    while i < |unknown|
      invariant 0 <= i <= |unknown|
      invariant extra == Assigned(unknown, i)
      decreases |unknown| - i
    {
      if IsFlag(unknown[i]) {
        var param := Key(unknown[i]);
        if i + 1 < |unknown| && !IsFlag(unknown[i + 1]) {
          extra := extra[param := Text(unknown[i + 1])];
          i := i + 2;
        } else {
          extra := extra[param := Flag];
          i := i + 1;
        }
      } else {
        i := i + 1;
      }
    }
  }

  /** Every flag token sets its key, and nothing else becomes a key. */
  lemma {:induction false} AssignedKeys(ts: seq<string>, n: nat, k: string)
    requires n <= |ts|
    ensures k in Assigned(ts, n) <==> exists i :: 0 <= i < n && IsFlag(ts[i]) && Key(ts[i]) == k
    decreases n
  {
    if n > 0 {
      AssignedKeys(ts, n - 1, k);
    }
  }

  /** The value of a key is what the last flag for that key assigns. */
  lemma {:induction false} LastFlagWins(ts: seq<string>, n: nat, j: nat)
    requires j < n <= |ts| && IsFlag(ts[j])
    requires forall i :: j < i < n && IsFlag(ts[i]) ==> Key(ts[i]) != Key(ts[j])
    ensures Key(ts[j]) in Assigned(ts, n) && Assigned(ts, n)[Key(ts[j])] == ValueAt(ts, j)
    decreases n
  {
    if n - 1 > j {
      LastFlagWins(ts, n - 1, j);
    }
  }

  /** Splitting the tokens where no flag is waiting for its value splits the
      dictionary: the keys of the right part override those of the left. */
  lemma {:induction false} AssignedConcat(a: seq<string>, b: seq<string>, n: nat)
    requires n <= |b|
    requires |a| == 0 || !IsFlag(a[|a| - 1]) || |b| == 0 || IsFlag(b[0])
    ensures Assigned(a + b, |a| + n) == Extra(a) + Assigned(b, n)
    decreases n
  {
    if n == 0 {
      AssignedPrefix(a, b, |a|);
    } else {
      AssignedConcat(a, b, n - 1);
      assert (a + b)[|a| + n - 1] == b[n - 1];
      if |a| + n < |a + b| {
        assert (a + b)[|a| + n] == b[n];
      }
    }
  }

  lemma {:induction false} AssignedPrefix(a: seq<string>, b: seq<string>, m: nat)
    requires m <= |a|
    requires |a| == 0 || !IsFlag(a[|a| - 1]) || |b| == 0 || IsFlag(b[0])
    ensures Assigned(a + b, m) == Assigned(a, m)
    decreases m
  {
    if m > 0 {
      AssignedPrefix(a, b, m - 1);
      assert (a + b)[m - 1] == a[m - 1];
      if m < |a| {
        assert (a + b)[m] == a[m];
      } else if |b| > 0 {
        assert (a + b)[m] == b[0];
      }
    }
  }

  lemma ExtraConcat(a: seq<string>, b: seq<string>)
    requires |a| == 0 || !IsFlag(a[|a| - 1]) || |b| == 0 || IsFlag(b[0])
    ensures Extra(a + b) == Extra(a) + Extra(b)
  {
    AssignedConcat(a, b, |b|);
  }

  /** `--k v`: both tokens are consumed and k maps to "v". */
  lemma FlagWithValue(f: string, v: string, rest: seq<string>)
    requires IsFlag(f) && !IsFlag(v)
    ensures Extra([f, v] + rest) == map[Key(f) := Text(v)] + Extra(rest)
  {
    ExtraConcat([f, v], rest);
    assert Assigned([f, v], 1) == map[Key(f) := Text(v)];
  }

  /** `--k` last or before another flag: one token is consumed and k maps to
      True. */
  lemma FlagAlone(f: string, rest: seq<string>)
    requires IsFlag(f) && (|rest| == 0 || IsFlag(rest[0]))
    ensures Extra([f] + rest) == map[Key(f) := Flag] + Extra(rest)
  {
    ExtraConcat([f], rest);
    var a := [f];
    assert a[0] == f && IsFlag(a[0]);
    assert Assigned(a, 0) == map[];
    assert Extra(a) == Assigned(a, 0)[Key(a[0]) := ValueAt(a, 0)];
  }

  /** A token that is neither a flag nor a flag's value is skipped. */
  lemma StraySkipped(t: string, rest: seq<string>)
    requires !IsFlag(t)
    ensures Extra([t] + rest) == Extra(rest)
  {
    ExtraConcat([t], rest);
    assert [t][0] == t;
    assert Extra([t]) == Assigned([t], 0);
  }

  /** Concrete consumption: the value-looking token after a bare flag is a
      value, a stray leading token is dropped, and a repeated key keeps the
      last value. */
  lemma ExtraExample()
    ensures Extra(["x", "--a", "1", "--b", "--a", "2"]) == map["a" := Text("2"), "b" := Flag]
  {
    var ts := ["x", "--a", "1", "--b", "--a", "2"];
    assert IsFlag(ts[1]) && IsFlag(ts[3]) && IsFlag(ts[4]) && !IsFlag(ts[0]) && !IsFlag(ts[2]) && !IsFlag(ts[5]);
    assert Key(ts[1]) == "a" && Key(ts[3]) == "b" && Key(ts[4]) == "a";
    assert Assigned(ts, 2) == map["a" := Text("1")];
    assert Assigned(ts, 4) == map["a" := Text("1"), "b" := Flag];
    assert Assigned(ts, 5) == map["a" := Text("2"), "b" := Flag];
  }
}
