/** The command line of a process, rewritten in place in a fixed buffer, and the string function it equals. */
module CommandLine {

  type byte = b: int | 0 <= b < 256
  type Bytes = seq<byte>

  datatype Text = Missing | Text(bytes: Bytes)

  // ----- the string function

  /** Without the trailing NULs. */
  function TrimNuls(s: Bytes): Bytes {
    if s != [] && s[|s| - 1] == 0 then TrimNuls(s[..|s| - 1]) else s
  }

  /** Every byte below space becomes a space. */
  function Clean(s: Bytes): (t: Bytes)
    ensures |t| == |s| && forall i :: 0 <= i < |s| ==> t[i] == if s[i] < ' ' as int then ' ' as int else s[i]
  {
    seq(|s|, i requires 0 <= i < |s| => if s[i] < ' ' as int then ' ' as int else s[i])
  }

  /** The length of the first word: up to a NUL, a space or the end. */
  function WordLength(s: Bytes): (n: nat)
    ensures n <= |s|
  {
    if s == [] || s[0] == 0 || s[0] == ' ' as int then 0 else 1 + WordLength(s[1..])
  }

  /** Where the last component of a path starts. */
  function BaseStart(word: Bytes): (n: nat)
    ensures n <= |word|
  {
    if word == [] || word[|word| - 1] == '/' as int then |word| else BaseStart(word[..|word| - 1])
  }

  /** The base name of the first word and everything after it, without the '-' of a login shell. */
  function BaseText(text: Bytes): Bytes {
    var b := Clean(text)[BaseStart(text[..WordLength(text)])..];
    if b != [] && b[0] == '-' as int then b[1..] else b
  }

  /** What a buffer of `size` bytes holds of `s`. */
  function Cut(s: Bytes, size: nat): (t: Bytes)
    requires size > 0
  {
    if |s| < size then s else s[..size - 1]
  }

  function Braced(name: Bytes): Bytes {
    ['{' as int] + name + ['}' as int]
  }

  function Bracketed(c: Text): Bytes {
    ['[' as int] + (if c.Text? then c.bytes else ['?' as int]) + [']' as int]
  }

  function Rewritten(raw: Bytes, c: Text, size: nat): Bytes
    requires size > 0
  {
    var text := TrimNuls(raw);
    if raw == [] then Cut(Bracketed(c), size)
    else if c.Missing? || c.bytes <= BaseText(text) then Clean(text)
    else Cut(Braced(c.bytes) + [' ' as int] + Clean(text), size)
  }

  // ----- strings in a buffer

  /** The C string at the start of a buffer. */
  function CString(s: Bytes): Bytes {
    if s == [] || s[0] == 0 then [] else [s[0]] + CString(s[1..])
  }

  lemma {:induction false} CStringIs(s: Bytes, t: Bytes)
    requires |t| < |s| && t <= s && s[|t|] == 0 && 0 !in t
    ensures CString(s) == t
  {
    if t == [] {
    } else {
      assert s[0] == t[0] && t[0] in t;
      assert t[1..] <= s[1..] && 0 !in t[1..];
      CStringIs(s[1..], t[1..]);
    }
  }

  lemma {:induction false} TrimIs(s: Bytes, k: nat)
    requires k <= |s| && (k > 0 ==> s[k - 1] != 0) && forall i :: k <= i < |s| ==> s[i] == 0
    ensures TrimNuls(s) == s[..k]
  {
    if k < |s| {
      assert s[..|s| - 1][..k] == s[..k];
      TrimIs(s[..|s| - 1], k);
    } else {
      assert s[..k] == s;
    }
  }

  lemma {:induction false} WordIs(s: Bytes, p: nat)
    requires p <= |s| && (p < |s| ==> s[p] == 0 || s[p] == ' ' as int)
    requires forall i :: 0 <= i < p ==> s[i] != 0 && s[i] != ' ' as int
    ensures WordLength(s) == p
  {
    if p == 0 {
    } else {
      WordIs(s[1..], p - 1);
    }
  }

  lemma {:induction false} BaseIs(w: Bytes, b: nat)
    requires b <= |w| && (b > 0 ==> w[b - 1] == '/' as int) && forall i :: b <= i < |w| ==> w[i] != '/' as int
    ensures BaseStart(w) == b
  {
    if b == |w| {
    } else {
      BaseIs(w[..|w| - 1], b);
    }
  }

  // ----- the code, step by step

  /** dm_file_to_buf: at most the buffer's size less one, then a NUL; -1 when the file cannot be opened. */
  method FileToBuf(file: Text, buf: array<byte>) returns (size: int)
    requires buf.Length > 0
    modifies buf
    ensures file.Missing? ==> size == -1
    ensures file.Text? ==> size == |Cut(file.bytes, buf.Length)|
    ensures file.Text? ==> Cut(file.bytes, buf.Length) <= buf[..] && buf[size] == 0
  {
    if file.Missing? {
      buf[0] := 0;
      return -1;
    }
    var data := Cut(file.bytes, buf.Length);
    forall i | 0 <= i < |data| {
      buf[i] := data[i];
    }
    buf[|data|] := 0;
    return |data|;
  }

  /** snprintf: as much of `s` as fits, and a NUL. */
  method PutString(buf: array<byte>, s: Bytes)
    requires buf.Length > 0
    modifies buf
    ensures Cut(s, buf.Length) <= buf[..] && buf[|Cut(s, buf.Length)|] == 0
    ensures forall i :: |Cut(s, buf.Length)| < i < buf.Length ==> buf[i] == old(buf[i])
  {
    var t := Cut(s, buf.Length);
    forall i | 0 <= i < |t| {
      buf[i] := t[i];
    }
    buf[|t|] := 0;
  }

  /** The trimming loop: how much of the first `size` bytes is left without trailing NULs. */
  method TrimTail(buf: array<byte>, size: nat) returns (k: nat)
    requires size <= buf.Length
    ensures k <= size && buf[..k] == TrimNuls(buf[..size])
    ensures forall i :: k <= i < size ==> buf[i] == 0
  {
    var sz: int := size - 1;
    while sz >= 0 && buf[sz] == 0
      invariant -1 <= sz < size
      invariant forall i :: sz < i < size ==> buf[i] == 0
    {
      sz := sz - 1;
    }
    k := sz + 1;
    TrimIs(buf[..size], k);
    assert buf[..size][..k] == buf[..k];
  }

  /** strchrnul and basename on the text buf[..k], which a NUL follows: cuts the text at the first word and finds
      where its base name starts. */
  method CutFirstWord(buf: array<byte>, k: nat) returns (p: nat, base: nat)
    requires k < buf.Length && buf[k] == 0
    modifies buf
    ensures p == WordLength(old(buf[..k])) && base == BaseStart(old(buf[..k])[..p])
    ensures buf[..] == old(buf[..])[p := 0]
  {
    p := 0;
    while buf[p] != 0 && buf[p] != ' ' as int
      invariant p <= k && forall i :: 0 <= i < p ==> buf[i] != 0 && buf[i] != ' ' as int
      decreases k - p
    {
      p := p + 1;
    }
    WordIs(buf[..k], p);
    base := p;
    while base > 0 && buf[base - 1] != '/' as int
      invariant base <= p && forall i :: base <= i < p ==> buf[i] != '/' as int
    {
      base := base - 1;
    }
    BaseIs(buf[..k][..p], base);
    buf[p] := 0;
  }

  /** Blanks every byte of buf[..k] below space, the last one first. */
  method Blank(buf: array<byte>, k: nat)
    requires k <= buf.Length
    modifies buf
    ensures buf[..k] == Clean(old(buf[..k]))
    ensures buf[k..] == old(buf[k..])
  {
    var sz: int := k - 1;
    while sz >= 0
      invariant -1 <= sz < k
      invariant forall i :: 0 <= i <= sz ==> buf[i] == old(buf[i])
      invariant forall i :: sz < i < k ==> buf[i] == if old(buf[i]) < ' ' as int then ' ' as int else old(buf[i])
      invariant buf[k..] == old(buf[k..])
    {
      if buf[sz] < ' ' as int {
        buf[sz] := ' ' as int;
      }
      sz := sz - 1;
    }
  }

  /** strncmp(base, name, strlen(name)) == 0 on a buffer whose string ends at k. */
  method StartsWith(buf: array<byte>, base: nat, k: nat, name: Bytes) returns (same: bool)
    requires base <= k < buf.Length && buf[k] == 0 && 0 !in name
    ensures same <==> name <= buf[base..k]
  {
    var i := 0;
    while i < |name|
      invariant i <= |name| && base + i <= k && name[..i] == buf[base..base + i]
    {
      if buf[base + i] != name[i] {
        return false;
      }
      assert name[i] in name;
      assert name[..i + 1] == name[..i] + [name[i]];
      i := i + 1;
    }
    assert name == name[..i] && buf[base..base + i] == buf[base..k][..i];
    return true;
  }

  lemma CutOfPrefix(a: Bytes, b: Bytes, size: nat)
    requires 0 < size <= |a| + 1
    ensures Cut(a + b, size) == Cut(a, size)
  {
  }

  /** Moves the text right and writes "{comm} " before it. */
  method Prepend(buf: array<byte>, k: nat, name: Bytes)
    requires k < buf.Length && buf[k] == 0 && 0 !in name && 0 !in buf[..k]
    modifies buf
    ensures 0 in buf[..]
    ensures CString(buf[..]) == Cut(Braced(name) + [' ' as int] + old(buf[..k]), buf.Length)
  {
    var size := buf.Length;
    var n := |name| + 3;
    ghost var text := buf[..k];
    ghost var want := Cut(Braced(name) + ([' ' as int] + text), size);
    Joined(name, text, size);
    if size > n {
      MoveRight(buf, n, k);
    }
    PutString(buf, Braced(name));
    if size > n {
      buf[n - 1] := ' ' as int;
      buf[size - 1] := 0;
      Assembled(buf[..], Braced(name), text);
    } else {
      CutOfPrefix(Braced(name), [' ' as int] + text, size);
    }
    Terminated(buf, want);
  }

  /** The text to build, however it is put together, contains no NUL. */
  lemma Joined(name: Bytes, text: Bytes, size: nat)
    requires size > 0 && 0 !in name && 0 !in text
    ensures Braced(name) + [' ' as int] + text == Braced(name) + ([' ' as int] + text)
    ensures 0 !in Cut(Braced(name) + ([' ' as int] + text), size)
  {
    var all := Braced(name) + ([' ' as int] + text);
    assert 0 !in all;
    assert Cut(all, size) <= all;
  }

  lemma Assembled(s: Bytes, name: Bytes, text: Bytes)
    requires |name| + 1 < |s| && name <= s && s[|name|] == ' ' as int && s[|s| - 1] == 0
    requires forall i {:trigger s[i]} :: |name| < i < |s| - 1 && i - |name| - 1 < |text| ==>
               s[i] == text[i - |name| - 1]
    requires |name| + 1 + |text| < |s| ==> s[|name| + 1 + |text|] == 0
    ensures var want := Cut(name + ([' ' as int] + text), |s|); want <= s && s[|want|] == 0
  {
    var all := name + ([' ' as int] + text);
    var want := Cut(all, |s|);
    forall i | 0 <= i < |want|
      ensures want[i] == s[i]
    {
      assert want[i] == all[i];
    }
  }

  method MoveRight(buf: array<byte>, n: nat, k: nat)
    requires n < buf.Length && k < buf.Length && buf[k] == 0
    modifies buf
    ensures forall i :: n <= i < buf.Length && i < n + k ==> buf[i] == old(buf[..k])[i - n]
    ensures n + k < buf.Length ==> buf[n + k] == 0
  {
    forall i | n <= i < buf.Length {
      buf[i] := buf[i - n];
    }
  }

  lemma Terminated(buf: array<byte>, t: Bytes)
    requires |t| < buf.Length && t <= buf[..] && buf[|t|] == 0 && 0 !in t
    ensures 0 in buf[..] && CString(buf[..]) == t
  {
    CStringIs(buf[..], t);
    assert buf[|t|] in buf[..];
  }

  /** Blanks the first `size` bytes as one line of text and finds the base name in it. */
  method Normalise(buf: array<byte>, size: nat) returns (k: nat, base: nat)
    requires size < buf.Length && buf[size] == 0
    modifies buf
    ensures var text := TrimNuls(old(buf[..size]));
            && k == |text| && k < buf.Length && buf[..k] == Clean(text) && buf[k] == 0
            && base <= k && buf[base..k] == BaseText(text)
  {
    k := TrimTail(buf, size);
    ghost var text := buf[..k];
    var p;
    p, base := CutFirstWord(buf, k);
    assert p < k ==> buf[..k] == text[p := 0];
    assert p == k ==> buf[..k] == text;
    Blank(buf, k);
    BlankedCut(text, p, k);
    assert buf[k] == buf[k..][0];
    assert buf[base..k] == Clean(text)[base..];
    if base < k && buf[base] == '-' as int {
      base := base + 1;
    }
  }

  /** procps_get_cmdline. */
  method GetCmdline(buf: array<byte>, file: Text, c: Text)
    requires buf.Length > 0 && (c.Text? ==> 0 !in c.bytes)
    modifies buf
    ensures 0 in buf[..]
    ensures CString(buf[..]) == Rewritten(if file.Text? then Cut(file.bytes, buf.Length) else [], c, buf.Length)
  {
    var size := FileToBuf(file, buf);
    if size <= 0 {
      PutString(buf, Bracketed(c));
      BracketedHasNoNul(c, buf.Length);
      Terminated(buf, Cut(Bracketed(c), buf.Length));
      return;
    }
    assert buf[..size] == Cut(file.bytes, buf.Length);
    var k, base := Normalise(buf, size);
    var same := true;
    if c.Text? {
      same := StartsWith(buf, base, k, c.bytes);
    }
    CleanHasNoNul(TrimNuls(Cut(file.bytes, buf.Length)));
    if same {
      Terminated(buf, buf[..k]);
    } else {
      Prepend(buf, k, c.bytes);
    }
  }

  lemma BracketedHasNoNul(c: Text, size: nat)
    requires size > 0 && (c.Text? ==> 0 !in c.bytes)
    ensures 0 !in Cut(Bracketed(c), size)
  {
    assert 0 !in Bracketed(c);
    assert Cut(Bracketed(c), size) <= Bracketed(c);
  }

  lemma CleanHasNoNul(text: Bytes)
    ensures 0 !in Clean(text)
  {
  }

  // ----- the string function on command lines

  /** The text of a login shell's name is shown without its '-' when comm is compared. */
  function WithoutDash(s: Bytes): Bytes {
    if s != [] && s[0] == '-' as int then s[1..] else s
  }

  predicate EndsWord(rest: Bytes) {
    rest == [] || rest[0] == 0 || rest[0] == ' ' as int
  }

  /** A command line as the kernel gives it: a first word that is a directory and a name, the rest after a NUL or a
      space, and the NULs that end it. */
  predicate IsCommand(dir: Bytes, name: Bytes, rest: Bytes) {
    && (dir == [] || dir[|dir| - 1] == '/' as int) && '/' as int !in name && EndsWord(rest)
    && 0 !in dir + name && ' ' as int !in dir + name && name != []
    && (rest != [] ==> rest[|rest| - 1] != 0)
  }

  function Nuls(n: nat): (s: Bytes)
    ensures |s| == n && forall i :: 0 <= i < n ==> s[i] == 0
  {
    seq(n, _ => 0)
  }

  /** What is shown of a command, whose NULs and other control bytes become spaces: the command itself when comm is how
      its name goes on, and otherwise "{comm} " before it, cut to the buffer. */
  lemma CommandIsShown(dir: Bytes, name: Bytes, rest: Bytes, nuls: nat, c: Text, size: nat)
    requires IsCommand(dir, name, rest) && size > 0
    ensures var (raw, line) := (dir + name + rest + Nuls(nuls), Clean(dir + name + rest));
            var tail := line[|dir|..];
            Rewritten(raw, c, size)
            == if c.Missing? || c.bytes <= WithoutDash(tail) then line
               else Cut(['{' as int] + c.bytes + ['}' as int, ' ' as int] + line, size)
  {
    var text := dir + name + rest;
    var raw := text + Nuls(nuls);
    NulsAreTrimmed(dir, name, rest, nuls);
    FirstWordIs(dir, name, rest);
    if c.Text? {
      assert Braced(c.bytes) + [' ' as int] == ['{' as int] + c.bytes + ['}' as int, ' ' as int];
    }
  }

  lemma NulsAreTrimmed(dir: Bytes, name: Bytes, rest: Bytes, nuls: nat)
    requires IsCommand(dir, name, rest)
    ensures var text := dir + name + rest; TrimNuls(text + Nuls(nuls)) == text && text != []
  {
    var text := dir + name + rest;
    if rest == [] {
      assert name[|name| - 1] in dir + name;
      assert text[|text| - 1] == name[|name| - 1];
    } else {
      assert text[|text| - 1] == rest[|rest| - 1];
    }
    TrimIs(text + Nuls(nuls), |text|);
    assert (text + Nuls(nuls))[..|text|] == text;
  }

  lemma FirstWordIs(dir: Bytes, name: Bytes, rest: Bytes)
    requires IsCommand(dir, name, rest)
    ensures var text := dir + name + rest;
            WordLength(text) == |dir + name| && BaseStart(text[..WordLength(text)]) == |dir|
  {
    var word, text := dir + name, dir + name + rest;
    forall i | 0 <= i < |word|
      ensures text[i] != 0 && text[i] != ' ' as int
    {
      assert text[i] == word[i] && word[i] in word;
    }
    assert |word| < |text| ==> text[|word|] == rest[0];
    WordIs(text, |word|);
    assert text[..|word|] == word;
    assert dir != [] ==> word[|dir| - 1] == dir[|dir| - 1];
    forall i | |dir| <= i < |word|
      ensures word[i] != '/' as int
    {
      assert word[i] == name[i - |dir|] && name[i - |dir|] in name;
    }
    BaseIs(word, |dir|);
  }

  /** An empty or missing file shows "[comm]", or "[?]". */
  lemma NoCommandIsShown(c: Text, size: nat)
    requires size > 0
    ensures Rewritten([], c, size)
            == if c.Text? then Cut(['[' as int] + c.bytes + [']' as int], size)
               else Cut(['[' as int, '?' as int, ']' as int], size)
  {
    assert ['[' as int] + ['?' as int] + [']' as int] == ['[' as int, '?' as int, ']' as int];
  }

  predicate Printable(s: Bytes) {
    forall i :: 0 <= i < |s| ==> s[i] >= ' ' as int
  }

  /** What a buffer of `size` bytes can show of comm behind an opening bracket. */
  function Shown(comm: Bytes, size: nat): Bytes {
    if |comm| + 2 <= size then comm else if size >= 2 then comm[..size - 2] else []
  }

  lemma BracketedIsPrintableIff(open: byte, comm: Bytes, rest: Bytes, size: nat)
    requires size > 0 && open >= ' ' as int && Printable(rest)
    ensures Printable(Cut([open] + comm + rest, size)) <==> Printable(Shown(comm, size))
  {
    var s := [open] + comm + rest;
    var cut := Cut(s, size);
    if Printable(cut) {
      assert forall i :: 0 <= i < |Shown(comm, size)| ==> Shown(comm, size)[i] == cut[i + 1];
    } else {
      var i :| 0 <= i < |cut| && cut[i] < ' ' as int;
      assert cut[i] == s[i] && 1 <= i <= |comm|;
      assert Shown(comm, size)[i - 1] == cut[i];
    }
  }

  lemma CutFits(s: Bytes, size: nat)
    requires size > 0
    ensures |Cut(s, size)| < size
  {
  }

  /** What is shown fits the buffer, and is one printable line if and only if the part of comm that the buffer can show
      behind a bracket is printable; without a comm it always is. */
  lemma RewrittenIsPrintableIff(raw: Bytes, c: Text, size: nat)
    requires |raw| < size
    ensures |Rewritten(raw, c, size)| < size
    ensures Printable(Rewritten(raw, c, size)) <==> (c.Text? ==> Printable(Shown(c.bytes, size)))
  {
    var text := TrimNuls(raw);
    TrimIsPrefix(raw);
    if raw == [] {
      BracketedLine(c, size);
    } else if c.Missing? || c.bytes <= BaseText(text) {
      CleanLine(text, c, size);
    } else {
      BracedLine(c.bytes, Clean(text), size);
    }
  }

  lemma BracketedLine(c: Text, size: nat)
    requires size > 0
    ensures var line := Cut(Bracketed(c), size);
            |line| < size && (Printable(line) <==> (c.Text? ==> Printable(Shown(c.bytes, size))))
  {
    CutFits(Bracketed(c), size);
    BracketedIsPrintableIff('[' as int, if c.Text? then c.bytes else ['?' as int], [']' as int], size);
  }

  lemma BracedLine(comm: Bytes, text: Bytes, size: nat)
    requires size > 0 && Printable(text)
    ensures var line := Cut(Braced(comm) + [' ' as int] + text, size);
            |line| < size && (Printable(line) <==> Printable(Shown(comm, size)))
  {
    var rest := ['}' as int] + ([' ' as int] + text);
    assert Braced(comm) + [' ' as int] + text == ['{' as int] + comm + rest;
    CutFits(['{' as int] + comm + rest, size);
    BracketedIsPrintableIff('{' as int, comm, rest, size);
  }

  lemma CleanLine(text: Bytes, c: Text, size: nat)
    requires |text| < size && (c.Missing? || c.bytes <= BaseText(text))
    ensures Printable(Clean(text)) && (c.Text? ==> Printable(Shown(c.bytes, size)))
  {
    if c.Text? {
      var line := Clean(text);
      var start := BaseStart(text[..WordLength(text)]);
      SuffixIsPrintable(line, start);
      SuffixIsPrintable(line[start..], if line[start..] != [] then 1 else 0);
      PrefixIsPrintable(c.bytes, BaseText(text));
      PrefixIsPrintable(Shown(c.bytes, size), c.bytes);
    }
  }

  lemma SuffixIsPrintable(s: Bytes, k: nat)
    requires k <= |s| && Printable(s)
    ensures Printable(s[k..])
  {
  }

  lemma PrefixIsPrintable(s: Bytes, t: Bytes)
    requires s <= t && Printable(t)
    ensures Printable(s)
  {
    assert forall i :: 0 <= i < |s| ==> s[i] == t[i];
  }

  lemma {:induction false} TrimIsPrefix(raw: Bytes)
    ensures TrimNuls(raw) <= raw && (TrimNuls(raw) == [] || TrimNuls(raw)[|TrimNuls(raw)| - 1] != 0)
    ensures forall i :: |TrimNuls(raw)| <= i < |raw| ==> raw[i] == 0
  {
    if raw == [] || raw[|raw| - 1] != 0 {
    } else {
      TrimIsPrefix(raw[..|raw| - 1]);
    }
  }

  /** The NUL written over the first space is itself blanked again. */
  lemma BlankedCut(text: Bytes, p: nat, k: nat)
    requires k == |text| && p == WordLength(text)
    ensures p < k ==> Clean(text[p := 0]) == Clean(text)
  {
    if p < k {
      StopsAt(text);
    }
  }

  lemma {:induction false} StopsAt(s: Bytes)
    requires WordLength(s) < |s|
    ensures s[WordLength(s)] == 0 || s[WordLength(s)] == ' ' as int
  {
    if s[0] == 0 || s[0] == ' ' as int {
    } else {
      StopsAt(s[1..]);
    }
  }
}
