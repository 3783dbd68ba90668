/**
 * The RPL_ISUPPORT (005) token fold of `IRCBot.on_005`, after the IRC ISUPPORT draft
 * (draft-brocklesby-irc-isupport): each token `KEY` or `KEY=VALUE` is cut at "=" and
 * written into the map, a later token overwriting an earlier one with the same key.
 */
module Isupport {
  import opened Wrappers
  import opened Separators

  type IsupportMap = map<string, Option<string>>

  const Eq: string := "="

  /** `supp.split("=")[0]`: a prefix of the token, the whole token exactly when it has no "=". */
  function TokenKey(token: string): (key: string)
    ensures key <= token
    ensures key == token <==> !Contains(token, Eq)
  {
    Split(token, Eq)[0]
  }

  /** `None` for a one-piece token, otherwise `supp.split("=")[1]`: a value exactly when the token has "=". */
  function TokenValue(token: string): (value: Option<string>)
    ensures value.None? <==> !Contains(token, Eq)
  {
    var parts := Split(token, Eq);
    if |parts| == 1 then None else Some(parts[1])
  }

  /** A flag token without "=" is its own key and has no value. */
  lemma FlagToken(token: string)
    requires '=' !in token
    ensures TokenKey(token) == token && TokenValue(token) == None
  {
    ContainsChar(token, '=');
    FindSpec(token, Eq);
  }

  /** `KEY=VALUE` gives that key and value. */
  lemma ValuedToken(key: string, value: string)
    requires '=' !in key && '=' !in value
    ensures TokenKey(key + "=" + value) == key
    ensures TokenValue(key + "=" + value) == Some(value)
  {
    ContainsChar(key, '=');
    SplitAfterPiece(key, Eq, value);
    FlagToken(value);
  }

  /** `KEY=VALUE=MORE` also gives that key and the value up to the second "="; the rest is dropped. */
  lemma ValuedTokenWithMore(key: string, value: string, more: string)
    requires '=' !in key && '=' !in value
    ensures TokenKey(key + "=" + value + "=" + more) == key
    ensures TokenValue(key + "=" + value + "=" + more) == Some(value)
  {
    var token := key + "=" + value + "=" + more;
    assert Split(token, Eq) == [key] + Split(value + Eq + more, Eq) by {
      ContainsChar(key, '=');
      assert token == key + Eq + (value + Eq + more);
      SplitAfterPiece(key, Eq, value + Eq + more);
    }
    assert Split(value + Eq + more, Eq) == [value] + Split(more, Eq) by {
      ContainsChar(value, '=');
      SplitAfterPiece(value, Eq, more);
    }
  }

  /** The keys named by `tokens`. */
  function KeysOf(tokens: seq<string>): set<string> {
    set k | 0 <= k < |tokens| :: TokenKey(tokens[k])
  }

  /** The `for` loop of `on_005`: fold each token into `m`, left to right. */
  function Fold(m: IsupportMap, tokens: seq<string>): (r: IsupportMap)
    ensures r.Keys == m.Keys + KeysOf(tokens)
    decreases |tokens|
  {
    if |tokens| == 0 then m
    else
      var last := tokens[|tokens| - 1];
      var front := tokens[..|tokens| - 1];
      assert KeysOf(tokens) == KeysOf(front) + {TokenKey(last)} by {
        forall k | k in KeysOf(tokens) ensures k in KeysOf(front) + {TokenKey(last)} {
          var i :| 0 <= i < |tokens| && TokenKey(tokens[i]) == k;
          if i < |front| { assert front[i] == tokens[i]; }
        }
        forall k | k in KeysOf(front) ensures k in KeysOf(tokens) {
          var i :| 0 <= i < |front| && TokenKey(front[i]) == k;
          assert tokens[i] == front[i];
        }
      }
      Fold(m, front)[TokenKey(last) := TokenValue(last)]
  }

  /** Later overwrites earlier: a key maps to the value of its last token. */
  lemma {:induction false} FoldLastWins(m: IsupportMap, tokens: seq<string>, j: nat)
    requires j < |tokens|
    requires forall i :: j < i < |tokens| ==> TokenKey(tokens[i]) != TokenKey(tokens[j])
    ensures TokenKey(tokens[j]) in Fold(m, tokens)
    ensures Fold(m, tokens)[TokenKey(tokens[j])] == TokenValue(tokens[j])
    decreases |tokens|
  {
    var front := tokens[..|tokens| - 1];
    if j < |tokens| - 1 {
      assert TokenKey(tokens[|tokens| - 1]) != TokenKey(tokens[j]);
      forall i | j < i < |front| ensures TokenKey(front[i]) != TokenKey(front[j]) {
        assert front[i] == tokens[i];
      }
      FoldLastWins(m, front, j);
    }
  }

  /** A key that no token names keeps its old value. */
  lemma {:induction false} FoldKeepsOthers(m: IsupportMap, tokens: seq<string>, key: string)
    requires key in m
    requires forall i :: 0 <= i < |tokens| ==> TokenKey(tokens[i]) != key
    ensures key in Fold(m, tokens) && Fold(m, tokens)[key] == m[key]
    decreases |tokens|
  {
    if |tokens| > 0 {
      var front := tokens[..|tokens| - 1];
      forall i | 0 <= i < |front| ensures TokenKey(front[i]) != key {
        assert front[i] == tokens[i];
      }
      FoldKeepsOthers(m, front, key);
    }
  }

  /** Folding two runs of tokens is folding their concatenation. */
  lemma {:induction false} FoldAppend(m: IsupportMap, a: seq<string>, b: seq<string>)
    ensures Fold(Fold(m, a), b) == Fold(m, a + b)
    decreases |b|
  {
    if |b| > 0 {
      FoldAppend(m, a, b[..|b| - 1]);
      assert (a + b)[..|a + b| - 1] == a + b[..|b| - 1];
      assert (a + b)[|a + b| - 1] == b[|b| - 1];
    } else {
      assert a + b == a;
    }
  }

  lemma ExampleTokens()
    ensures TokenKey("A=1") == "A" && TokenValue("A=1") == Some("1")
    ensures TokenKey("B") == "B" && TokenValue("B") == None
    ensures TokenKey("A=2") == "A" && TokenValue("A=2") == Some("2")
  {
    ValuedToken("A", "1");
    ValuedToken("A", "2");
    FlagToken("B");
    assert "A" + "=" + "1" == "A=1";
    assert "A" + "=" + "2" == "A=2";
  }

  /** `A=1`, `B`, `A=2` yields `A` mapped to "2" and `B` a flag. */
  lemma OverwriteExample()
    ensures Fold(map[], ["A=1", "B", "A=2"]) == map["A" := Some("2"), "B" := None]
  {
    ExampleTokens();
    var ts := ["A=1", "B", "A=2"];
    assert Fold(map[], ts[..1]) == map["A" := Some("1")] by {
      assert ts[..1][..0] == [];
    }
    assert Fold(map[], ts[..2]) == map["A" := Some("1"), "B" := None] by {
      assert ts[..2][..1] == ts[..1];
    }
    assert ts[..3][..2] == ts[..2] && ts[..3] == ts;
  }
}
