/** The circular buffer of recent records (core-go/main.go). */
module Ring {
  const SIZE := 512

  /** The newest `n` of what was pushed, newest first. */
  function Newest(pushed: seq<string>, n: nat): (r: seq<string>)
    requires n <= |pushed|
    ensures |r| == n && forall i :: 0 <= i < n ==> r[i] == pushed[|pushed| - 1 - i]
  {
    seq(n, i requires 0 <= i < n => pushed[|pushed| - 1 - i])
  }

  class Recent {
    const buf: array<string>
    var idx: nat
    /** Everything ever pushed. */
    ghost var pushed: seq<string>

    /** Each of the last 512 records lies at its number modulo 512. */
    ghost predicate Valid()
      reads this, buf
    {
      && buf.Length == SIZE && idx == |pushed|
      && forall j :: 0 <= j < idx && idx - SIZE <= j ==> buf[j % SIZE] == pushed[j]
    }

    constructor ()
      ensures Valid() && pushed == [] && fresh(buf)
    {
      buf := new string[SIZE](_ => "");
      idx, pushed := 0, [];
    }

    method Push(rec: string)
      requires Valid()
      modifies this, buf
      ensures Valid() && pushed == old(pushed) + [rec]
    {
      buf[idx % SIZE] := rec;
      pushed := pushed + [rec];
      idx := idx + 1;
      forall j | 0 <= j < idx && idx - SIZE <= j ensures buf[j % SIZE] == pushed[j] {
        if j < idx - 1 {
          OtherSlot(j, idx - 1);
        }
      }
    }

    /** As many of the newest records as were asked for and are still there, newest first. */
    method List(limit: nat) returns (out: seq<string>)
      requires Valid()
      ensures |out| == (if limit < |pushed| then if limit < 512 then limit else 512
                        else if |pushed| < 512 then |pushed| else 512)
      ensures out == Newest(pushed, |out|)
    {
      var n := if idx > SIZE then SIZE else idx;
      var want := if limit > n then n else limit;
      out := [];
      for i := 0 to want
        invariant out == Newest(pushed, i)
      {
        out := out + [buf[(idx - 1 - i + SIZE * 2) % SIZE]];
      }
    }
  }

  lemma OtherSlot(j: nat, k: nat)
    requires j < k < j + SIZE
    ensures j % SIZE != k % SIZE
  {
    var q, r := j / SIZE, j % SIZE;
    assert k == SIZE * q + (r + (k - j));
  }
}
