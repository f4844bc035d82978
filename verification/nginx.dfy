/**
 * `Nginx`: an nginx configuration file edited in read-transform-write
 * cycles. The file is modelled by its text; reading may throw after some
 * lines and writing may fail to open the file, and both failures are
 * caught, as `modifyConfig` catches its `IOException`s.
 */
module NginxConfig {
  import opened Options
  import opened NginxText

  /**
   * The file after one `modifyConfig` cycle: `edit` applied to what was read,
   * unless the file could not be opened for writing.
   */
  function Cycle(file: string, edit: string -> string, readFault: Option<nat>, writeFails: bool): string {
    if writeFails then file else edit(ReadText(file, readFault))
  }

  class Nginx {
    /** The text of the configuration file. */
    var content: string

    constructor(initial: string)
      ensures content == initial
    {
      content := initial;
    }

    /**
     * The reading half of `modifyConfig`: every line `readLine` returns, with
     * `"\n"` after it, until the file ends or the reader throws after
     * `fault` lines.
     */
    method ReadConfig(fault: Option<nat>) returns (text: string)
      ensures text == ReadText(content, fault)
      ensures fault == Some(0) ==> text == ""
      ensures fault.None? && NoCarriageReturn(content) ==> text == Completed(content)
    {
      text := "";
      var pos := 0;
      var n := 0;
      while pos < |content| && (fault.None? || n < fault.value)
        invariant pos <= |content| && n <= |Lines(content)|
        invariant LinesFrom(content, pos) == Lines(content)[n..]
        invariant text == Joined(Lines(content)[..n])
        invariant fault.Some? ==> n <= fault.value
        decreases |content| - pos
      {
        ReadStep(content, pos, n);
        var end := LineEnd(content, pos);
        text := text + content[pos..end] + "\n";
        pos := Resume(content, end);
        n := n + 1;
      }
      ReadStop(content, pos, n, fault);
      if fault.None? && NoCarriageReturn(content) {
        ReadWholeFile(content);
      }
    }

    /** `modifyConfig`: read the whole file, apply `edit`, write the result back. */
    method ModifyConfig(edit: string -> string, readFault: Option<nat>, writeFails: bool)
      modifies this
      ensures content == Cycle(old(content), edit, readFault, writeFails)
    {
      var text := ReadConfig(readFault);
      var modified := edit(text);
      if !writeFails {
        content := modified;
      }
    }

    /** `addServerGroup`: insert an upstream block before every `server {`. */
    method AddServerGroup(group: string, servers: seq<string>, readFault: Option<nat>, writeFails: bool)
      modifies this
      ensures content == Cycle(old(content), t => AddUpstream(t, group, servers), readFault, writeFails)
    {
      ModifyConfig(t => AddUpstream(t, group, servers), readFault, writeFails);
    }

    /**
     * `removeServerGroup`: one cycle removes the group's block and writes the
     * file, a second cycle retargets `proxy_pass` from the group to
     * `replacement`.
     */
    method RemoveServerGroup(group: string, replacement: string,
                             readFault1: Option<nat>, writeFails1: bool,
                             readFault2: Option<nat>, writeFails2: bool)
      requires PlainName(group) && PlainName(replacement)
      modifies this
      ensures content == Cycle(Cycle(old(content), t => RemoveUpstream(t, group), readFault1, writeFails1),
                               t => Retarget(t, group, replacement), readFault2, writeFails2)
    {
      ModifyConfig(t => RemoveUpstream(t, group), readFault1, writeFails1);
      ReplaceProxyPass(group, replacement, readFault2, writeFails2);
    }

    /** `replaceProxyPass`: point every `proxy_pass` to `target` at `replacement`. */
    method ReplaceProxyPass(target: string, replacement: string, readFault: Option<nat>, writeFails: bool)
      requires PlainName(target) && PlainName(replacement)
      modifies this
      ensures content == Cycle(old(content), t => Retarget(t, target, replacement), readFault, writeFails)
    {
      ModifyConfig(t => Retarget(t, target, replacement), readFault, writeFails);
    }
  }
}
