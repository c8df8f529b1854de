/**
 * The parsers at work on their buffers: C strings in an array just large enough for
 * the option string and its terminator.
 */
module MountParsers {
  import opened Libc
  import opened MountOptions

  /** The array holds the terminated string s. */
  predicate CString(a: array<char>, s: string)
    reads a
  {
    |s| < a.Length && NoNul(s) && a[..|s|] == s && a[|s|] == '\0'
  }

  /** A part added to what was collected before. */
  function AddPart(text: string, opt: string): string {
    if text == "" then opt else text + "," + opt
  }

  lemma JoinMore(ps: seq<string>, p: string)
    requires Proper(ps)
    ensures Join(ps + [p]) == AddPart(Join(ps), p)
  {
    JoinCommas(ps);
    if ps != [] {
      assert (ps + [p])[..|ps + [p]| - 1] == ps;
    }
  }

  // ---- copying ----

  method Strlen(a: array<char>, ghost s: string) returns (n: nat)
    requires CString(a, s)
    ensures n == |s|
  {
    n := 0;
    while a[n] != '\0'
      invariant n <= |s| && a[n] == (s + "\0")[n]
      decreases |s| - n
    {
      n := n + 1;
      assert n < |s| ==> a[..|s|][n] == s[n];
    }
  }

  /** The result is the length aimed at, which fits exactly if it is below the size. */
  method Strlcat(a: array<char>, x: string, ghost s: string) returns (ret: nat)
    requires CString(a, s) && NoNul(x)
    modifies a
    ensures ret == |s| + |x|
    ensures CString(a, if ret < a.Length then s + x else s + x[..a.Length - 1 - |s|])
  {
    var n := Strlen(a, s);
    var i := 0;
    while i < |x| && n + i + 1 < a.Length
      invariant i <= |x| && n + i < a.Length
      invariant a[..n + i] == s + x[..i]
    {
      a[n + i] := x[i];
      i := i + 1;
    }
    assert i == if n + |x| < a.Length then |x| else a.Length - 1 - |s|;
    assert x[..|x|] == x;
    a[n + i] := '\0';
    ret := n + |x|;
  }

  /** Copies without a bound: the caller must know that there is room. */
  method Stpcpy(a: array<char>, end: nat, x: string, ghost s: string) returns (next: nat)
    requires end == |s| && end + |x| < a.Length && NoNul(x) && NoNul(s) && a[..end] == s
    modifies a
    ensures next == end + |x| && CString(a, s + x)
  {
    var i := 0;
    while i < |x|
      invariant i <= |x| && a[..end + i] == s + x[..i]
    {
      a[end + i] := x[i];
      i := i + 1;
    }
    a[end + i] := '\0';
    next := end + i;
  }

  lemma SkipComma(s: string, i: nat)
    requires i < |s| && s[i] == ','
    ensures Parts(s[i..]) == Parts(s[i + 1..])
  {
    assert s[i..][1..] == s[i + 1..];
  }

  lemma PartGoesOn(s: string, j: nat)
    requires j < |s| && s[j] != ','
    ensures PartLen(s[j..]) == 1 + PartLen(s[j + 1..])
  {
    assert s[j..][1..] == s[j + 1..];
  }

  lemma PartIsCut(s: string, i: nat, j: nat, next: string)
    requires i < j <= |s| && s[i] != ',' && PartLen(s[i..]) == j - i
    requires if j < |s| then s[j] == ',' && next == s[j + 1..] else next == ""
    ensures Parts(s[i..]) == [s[i..j]] + Parts(next)
  {
    assert s[i..][..j - i] == s[i..j] && s[i..][j - i..] == s[j..];
    if j < |s| { SkipComma(s, j); }
  }

  /** strtok_r(): the next part, and the string after the separator that ends it. */
  method NextPart(rest: string) returns (part: string, next: string)
    ensures part == "" ==> Parts(rest) == []
    ensures part != "" ==> Parts(rest) == [part] + Parts(next)
    ensures |part| + |next| <= |rest| && (next == "" || part == "" || |part| + 1 + |next| <= |rest|)
    ensures NoNul(rest) ==> NoNul(part) && NoNul(next)
  {
    var i := 0;
    while i < |rest| && rest[i] == ','
      invariant i <= |rest| && Parts(rest) == Parts(rest[i..])
    {
      SkipComma(rest, i);
      i := i + 1;
    }
    var j := i;
    while j < |rest| && rest[j] != ','
      invariant i <= j <= |rest| && PartLen(rest[i..]) == j - i + PartLen(rest[j..])
    {
      PartGoesOn(rest, j);
      j := j + 1;
    }
    part := rest[i..j];
    next := if j < |rest| then rest[j + 1..] else "";
    if i < j {
      assert j == |rest| ==> rest[j..] == "";
      PartIsCut(rest, i, j, next);
    } else {
      assert rest[i..] == "";
    }
  }

  // ---- the legacy parser ----

  /** Both calls of strlcat() succeed if there is room for the part and a comma. */
  method Append(opt: string, data: array<char>, ghost text: string) returns (ret: int)
    requires CString(data, text) && NoNul(opt)
    modifies data
    ensures |AddPart(text, opt)| < data.Length ==> ret == 0 && CString(data, AddPart(text, opt))
    ensures |AddPart(text, opt)| >= data.Length ==> ret > 0
  {
    var size := data.Length;
    ghost var before := text;
    if data[0] != '\0' {
      var n := Strlcat(data, ",", text);
      if n >= size {
        return n;
      }
      before := text + ",";
    }
    var m := Strlcat(data, opt, before);
    if m >= size {
      return m;
    }
    ret := 0;
  }

  method ParseMntopt(t: Table, opt: string, flags: Flags, data: array<char>, ghost text: string)
    returns (ret: int, newFlags: Flags)
    requires CString(data, text) && NoNul(opt) && |AddPart(text, opt)| < data.Length
    modifies data
    ensures ret == 0 && newFlags == LegacyStep(t, flags, opt)
    ensures CString(data, if LegacyData(t, opt) then AddPart(text, opt) else text)
  {
    newFlags := flags;
    if '=' !in opt {
      for k := 0 to |t|
        invariant FindExact(t, opt, 0) == FindExact(t, opt, k)
      {
        if |opt| == |t[k].name| && opt == t[k].name {
          if t[k].clear {
            newFlags := flags - t[k].legacyFlag;
          } else {
            newFlags := flags + t[k].legacyFlag;
          }
          return 0, newFlags;
        }
      }
    }
    ret := Append(opt, data, text);
  }

  /** What is collected so far and what is still to come fit into the size together. */
  predicate Room(text: string, part: string, rest: string, size: nat) {
    && |text| <= size
    && (part != "" ==> |AddPart(text, part)| <= size)
    && (part != "" && rest != "" ==> |AddPart(text, part)| + 1 + |rest| <= size)
  }

  /** The parts that have been read, then the current one, then those in the rest. */
  predicate Reading(s: string, done: seq<string>, part: string, rest: string) {
    && NoNul(part) && NoNul(rest)
    && Parts(s) == done + if part == "" then [] else [part] + Parts(rest)
  }

  lemma ReadMore(s: string, done: seq<string>, part: string, rest: string)
    requires Reading(s, done, part, rest) && part != ""
    ensures Proper(done) && Parts(s) == done + [part] + Parts(rest)
  {
    assert forall i | 0 <= i < |done| :: done[i] == Parts(s)[i];
  }

  /** The part has been read, and added to the text or not; what comes next still fits. */
  lemma StillRoom(text: string, part: string, rest: string, size: nat, added: bool, next: string, after: string)
    requires Room(text, part, rest, size) && part != "" && |next| + |after| <= |rest|
    requires next != "" && after != "" ==> |next| + 1 + |after| <= |rest|
    ensures Room(if added then AddPart(text, part) else text, next, after, size)
  {
  }

  lemma StillReading(s: string, done: seq<string>, part: string, rest: string, next: string, after: string)
    requires Reading(s, done, part, rest) && part != "" && NoNul(next) && NoNul(after)
    requires Parts(rest) == if next == "" then [] else [next] + Parts(after)
    ensures Reading(s, done + [part], next, after)
  {
  }

  lemma LegacyMore(t: Table, done: seq<string>, part: string, flags: Flags)
    requires Proper(done)
    ensures LegacyFlags(t, done + [part], flags) == LegacyStep(t, LegacyFlags(t, done, flags), part)
    ensures Join(LegacyParts(t, done + [part])) ==
            var text := Join(LegacyParts(t, done)); if LegacyData(t, part) then AddPart(text, part) else text
  {
    assert (done + [part])[..|done + [part]| - 1] == done;
    PartsStayProper(t, [], done);
    JoinMore(LegacyParts(t, done), part);
    assert LegacyParts(t, done) + [] == LegacyParts(t, done);
  }

  lemma NewMore(t: Table, props: Table, done: seq<string>, part: string, v: Vfs)
    requires Proper(done)
    ensures NewVfs(t, props, done + [part], v) == NewStep(t, props, NewVfs(t, props, done, v), part)
    ensures Join(NewParts(t, props, done + [part])) ==
            var text := Join(NewParts(t, props, done)); if NewData(t, props, part) then AddPart(text, part) else text
  {
    assert (done + [part])[..|done + [part]| - 1] == done;
    PartsStayProper(t, props, done);
    JoinMore(NewParts(t, props, done), part);
    assert NewParts(t, props, done) + [] == NewParts(t, props, done);
  }

  /** The loop over the parts; the buffer is as large as the string with its terminator. */
  method CollectLegacy(t: Table, s: string, buffer: array<char>) returns (flags: Flags)
    requires NoNul(s) && buffer.Length == |s| + 1 && CString(buffer, "")
    modifies buffer
    ensures flags == LegacyFlags(t, Parts(s), {})
    ensures CString(buffer, Join(LegacyParts(t, Parts(s))))
  {
    flags := {};
    ghost var done: seq<string> := [];
    ghost var text := "";
    var part, rest := NextPart(s);
    while part != ""
      invariant Reading(s, done, part, rest) && Room(text, part, rest, |s|)
      invariant flags == LegacyFlags(t, done, {}) && text == Join(LegacyParts(t, done))
      invariant CString(buffer, text)
      decreases |part| + |rest|
    {
      ReadMore(s, done, part, rest);
      LegacyMore(t, done, part, {});
      var ret;
      ret, flags := ParseMntopt(t, part, flags, buffer, text);
      var next, after := NextPart(rest);
      StillReading(s, done, part, rest, next, after);
      StillRoom(text, part, rest, |s|, LegacyData(t, part), next, after);
      text := if LegacyData(t, part) then AddPart(text, part) else text;
      done := done + [part];
      part, rest := next, after;
    }
    assert done == Parts(s);
  }

  /**
   * Neither the buffer nor any part is cut short: the result is the flags that the
   * parts ask for and the other parts joined by commas, or no data if there are none.
   */
  method ParseMntoptsLegacy(t: Table, mntopts: Option<string>, mntflags: Flags, mntdata: array?<char>,
                            allocates: bool)
    returns (ret: int, flags: Flags, data: array?<char>)
    requires mntopts.Some? ==> NoNul(mntopts.value)
    ensures ret == if mntdata != null || mntflags != {} then -EINVAL
                   else if mntopts.Some? && !allocates then -ENOMEM else 0
    ensures ret != 0 || mntopts.None? ==> flags == mntflags && data == mntdata
    ensures ret == 0 && mntopts.Some? ==>
              var ps := Parts(mntopts.value);
              && flags == LegacyFlags(t, ps, {})
              && (data == null <==> LegacyParts(t, ps) == [])
              && (data != null ==> CString(data, Join(LegacyParts(t, ps))))
  {
    flags, data := mntflags, mntdata;
    if mntdata != null || mntflags != {} {
      return -EINVAL, flags, data;
    }
    if mntopts.None? {
      return 0, flags, data;
    }
    if !allocates {
      return -ENOMEM, flags, data;
    }
    var buffer := new char[|mntopts.value| + 1](_ => '\0');
    flags := CollectLegacy(t, mntopts.value, buffer);
    PartsStayProper(t, [], Parts(mntopts.value));
    JoinCommas(LegacyParts(t, Parts(mntopts.value)));
    if buffer[0] != '\0' {
      data := buffer;
    }
    ret := 0;
  }

  // ---- the new parser ----

  method AppendUnchecked(buffer: array<char>, end: Option<nat>, part: string, ghost text: string)
    returns (next: nat)
    requires CString(buffer, text) && end == if text == "" then None else Some(|text|)
    requires NoNul(part) && |AddPart(text, part)| < buffer.Length
    modifies buffer
    ensures next == |AddPart(text, part)| && CString(buffer, AddPart(text, part))
  {
    if end.None? {
      next := Stpcpy(buffer, 0, part, "");
    } else {
      next := Stpcpy(buffer, end.value, ",", text);
      next := Stpcpy(buffer, next, part, text + ",");
    }
  }

  class MountOptionsParser {
    var vfs: Vfs
    var data: array?<char>

    /** True if the option has been dealt with. */
    method ParseVfsAttr(t: Table, props: Table, opt: string) returns (processed: bool)
      modifies `vfs
      ensures vfs == NewStep(t, props, old(vfs), opt) && (processed <==> !NewData(t, props, opt))
    {
      for k := 0 to |t|
        invariant FindPrefix(t, opt, 0) == FindPrefix(t, opt, k) && vfs == old(vfs)
      {
        var mo := t[k];
        if mo.name <= opt {
          if mo.name == "rbind" {
            vfs := vfs.(bindRecursively := true);
            vfs := vfs.(bind := true);
            vfs := vfs.(mntFlags := vfs.mntFlags + mo.legacyFlag);
            return true;
          }
          if mo.name == "bind" {
            vfs := vfs.(bind := true);
            vfs := vfs.(mntFlags := vfs.mntFlags + mo.legacyFlag);
            return true;
          }
          if mo.ignored {
            return true;
          }
          if mo.clear {
            vfs := vfs.(attrClr := vfs.attrClr + mo.flag);
            vfs := vfs.(mntFlags := vfs.mntFlags - mo.legacyFlag);
          } else {
            vfs := vfs.(attrSet := vfs.attrSet + mo.flag);
            vfs := vfs.(mntFlags := vfs.mntFlags + mo.legacyFlag);
          }
          return true;
        }
      }
      for k := 0 to |props|
        invariant FindPrefix(props, opt, 0) == FindPrefix(props, opt, k) && vfs == old(vfs)
      {
        var mo := props[k];
        if mo.name <= opt {
          if IsRecursivePropagation(mo.name) {
            vfs := vfs.(propagateRecursively := true);
          }
          vfs := vfs.(propagation := mo.flag);
          vfs := vfs.(propFlags := vfs.propFlags + mo.legacyFlag);
          return true;
        }
      }
      processed := false;
    }

    /** The loop over the parts, which copies without checking for room. */
    method CollectAttrs(t: Table, props: Table, s: string, buffer: array<char>)
      requires NoNul(s) && buffer.Length == |s| + 1 && CString(buffer, "")
      modifies `vfs, buffer
      ensures vfs == NewVfs(t, props, Parts(s), old(vfs))
      ensures CString(buffer, Join(NewParts(t, props, Parts(s))))
    {
      ghost var done: seq<string> := [];
      ghost var text := "";
      var end: Option<nat> := None;
      var part, rest := NextPart(s);
      while part != ""
        invariant Reading(s, done, part, rest) && Room(text, part, rest, |s|)
        invariant vfs == NewVfs(t, props, done, old(vfs)) && text == Join(NewParts(t, props, done))
        invariant CString(buffer, text) && end == if text == "" then None else Some(|text|)
        decreases |part| + |rest|
      {
        ReadMore(s, done, part, rest);
        NewMore(t, props, done, part, old(vfs));
        var processed := ParseVfsAttr(t, props, part);
        if !processed {
          var next := AppendUnchecked(buffer, end, part, text);
          end := Some(next);
        }
        var next, after := NextPart(rest);
        StillReading(s, done, part, rest, next, after);
        StillRoom(text, part, rest, |s|, NewData(t, props, part), next, after);
        text := if NewData(t, props, part) then AddPart(text, part) else text;
        done := done + [part];
        part, rest := next, after;
      }
      assert done == Parts(s);
    }

    method ParseMountAttrs(t: Table, props: Table, mntopts: Option<string>, allocates: bool) returns (ret: int)
      requires mntopts.Some? ==> NoNul(mntopts.value)
      modifies this
      ensures ret == if mntopts.Some? && !allocates then -ENOMEM else 0
      ensures ret != 0 || mntopts.None? ==> vfs == old(vfs) && data == old(data)
      ensures ret == 0 && mntopts.Some? ==>
                var ps := Parts(mntopts.value);
                && vfs == NewVfs(t, props, ps, old(vfs))
                && (if NewParts(t, props, ps) == [] then data == old(data)
                    else data != null && CString(data, Join(NewParts(t, props, ps))))
    {
      if mntopts.None? {
        return 0;
      }
      if !allocates {
        return -ENOMEM;
      }
      var buffer := new char[|mntopts.value| + 1](_ => '\0');
      CollectAttrs(t, props, mntopts.value, buffer);
      PartsStayProper(t, props, Parts(mntopts.value));
      JoinCommas(NewParts(t, props, Parts(mntopts.value)));
      if buffer[0] != '\0' {
        data := buffer;
      }
      ret := 0;
    }
  }
}
