/**
 * `parseArgs` of the headless explorer: a `--key` token sets `args[key] = true`
 * and becomes the pending key; the next token that is not a flag replaces that
 * value and clears the pending key; other tokens are ignored.
 */
module CliArgs {
  import opened Wrappers
  import opened JsValues

  /** `token.startsWith('--')`. */
  predicate IsFlag(token: string) {
    |token| >= 2 && token[..2] == "--"
  }

  /** The parser's state between tokens: the `args` object and `currentKey`. */
  datatype ArgState = ArgState(args: Object, currentKey: Option<string>)

  /** `currentKey` is truthy: present and not the empty string. */
  predicate Pending(st: ArgState) {
    st.currentKey.Some? && st.currentKey.value != ""
  }

  /** One turn of the `forEach` in `parseArgs`. */
  function ParseStep(st: ArgState, token: string): ArgState {
    if IsFlag(token) then ArgState(st.args[token[2..] := Bool(true)], Some(token[2..]))
    else if Pending(st) then ArgState(st.args[st.currentKey.value := Text(token)], None)
    else st
  }

  /** The state after reading all of argv, starting from `{}` and `null`. */
  function {:induction false} ParseState(argv: seq<string>): ArgState
    decreases |argv|
  {
    if argv == [] then ArgState(map[], None)
    else ParseStep(ParseState(argv[..|argv| - 1]), argv[|argv| - 1])
  }

  /** `parseArgs(argv)`. */
  method ParseArgs(argv: seq<string>) returns (args: Object)
    ensures args == ParseState(argv).args
  {
    args := map[];
    var currentKey: Option<string> := None;
    for i := 0 to |argv|
      invariant ArgState(args, currentKey) == ParseState(argv[..i])
    {
      var token := argv[i];
      assert argv[..i + 1][..i] == argv[..i];
      if |token| >= 2 && token[..2] == "--" {
        currentKey := Some(token[2..]);
        args := args[token[2..] := Bool(true)];
      } else if currentKey.Some? && currentKey.value != "" {
        args := args[currentKey.value := Text(token)];
        currentKey := None;
      }
    }
    assert argv[..|argv|] == argv;
  }

  /** Token i of argv is the flag `--k`. */
  predicate FlagAt(argv: seq<string>, i: int, k: string) {
    0 <= i < |argv| && IsFlag(argv[i]) && argv[i][2..] == k
  }

  /** Token i of argv is the last `--k` flag in argv. */
  predicate LastFlagAt(argv: seq<string>, i: int, k: string) {
    FlagAt(argv, i, k) && forall j :: i < j < |argv| ==> !FlagAt(argv, j, k)
  }

  /**
   * The value `--k` at index i leaves behind when it is the last `--k`: the token
   * after it when that token exists and is not a flag (and k is not empty, since
   * an empty key is falsy and takes no value), and `true` otherwise.
   */
  function FlagValue(argv: seq<string>, i: int, k: string): Value
    requires FlagAt(argv, i, k)
  {
    if k != "" && i + 1 < |argv| && !IsFlag(argv[i + 1]) then Text(argv[i + 1]) else Bool(true)
  }

  /** A key is pending exactly when the last token was a flag with a non-empty key. */
  lemma {:induction false} PendingAfter(argv: seq<string>)
    ensures Pending(ParseState(argv)) <==>
              argv != [] && IsFlag(argv[|argv| - 1]) && argv[|argv| - 1][2..] != ""
    ensures Pending(ParseState(argv)) ==> ParseState(argv).currentKey.value == argv[|argv| - 1][2..]
  {
  }

  /** The parsed keys are exactly the keys of the `--key` tokens. */
  lemma {:induction false} ParseArgsKeys(argv: seq<string>, k: string)
    ensures k in ParseState(argv).args <==> exists i :: FlagAt(argv, i, k)
    decreases |argv|
  {
    if argv != [] {
      var n := |argv| - 1;
      var p := argv[..n];
      var st := ParseState(p);
      ParseArgsKeys(p, k);
      PendingAfter(p);
      var t := argv[n];
      assert ParseState(argv) == ParseStep(st, t);
      assert st.args.Keys <= ParseState(argv).args.Keys;
      if k in ParseState(argv).args {
        if IsFlag(t) && t[2..] == k {
          assert FlagAt(argv, n, k);
        } else {
          if Pending(st) && !IsFlag(t) && st.currentKey.value == k {
            assert FlagAt(p, n - 1, k);
          }
          assert k in st.args;
          var i :| FlagAt(p, i, k);
          assert FlagAt(argv, i, k);
        }
      }
      if exists i :: FlagAt(argv, i, k) {
        var i :| FlagAt(argv, i, k);
        if i < n {
          assert FlagAt(p, i, k);
        }
      }
    }
  }

  /**
   * Later occurrences overwrite earlier ones: the value of `args[k]` is decided by
   * the last `--k` token alone.
   */
  lemma {:induction false} ParseArgsLastFlag(argv: seq<string>, k: string, i: int)
    requires LastFlagAt(argv, i, k)
    ensures k in ParseState(argv).args && ParseState(argv).args[k] == FlagValue(argv, i, k)
    decreases |argv|
  {
    var n := |argv| - 1;
    var p := argv[..n];
    var st := ParseState(p);
    var t := argv[n];
    PendingAfter(p);
    if i < n {
      assert LastFlagAt(p, i, k) by {
        forall j | i < j < |p| ensures !FlagAt(p, j, k) {
          assert !FlagAt(argv, j, k);
        }
      }
      ParseArgsLastFlag(p, k, i);
      assert !FlagAt(argv, n, k);
      if i + 1 < n {
        assert p[i + 1] == argv[i + 1];
      }
      if !IsFlag(t) && Pending(st) && st.currentKey.value == k {
        assert FlagAt(argv, n - 1, k);
      }
    }
  }

}
