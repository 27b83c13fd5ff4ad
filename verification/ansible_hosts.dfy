/**
  The inventory file handed to Ansible: a fixed comment header, the master section, and one
  line per slave IP under the slave section, in the order the IPs were added.

  A null IP or a null SSH user is printed as "null", as `StringBuilder.append` does.
*/
module AnsibleHosts {
  import opened Wrappers
  import opened JavaText

  const Header: string :=
    "# The content of this file (ansible_hosts) should be generated by BiBiGrid during instance initialization.\n"
    + "# Depending on the used base image the ansible_user must be changed. The local ip address of each slave must\n"
    + "# inserted in the slave section\n\n"

  const Sections: string := "[master]\nlocalhost ansible_connection=local\n\n[slaves]\n"

  const SlaveSuffix: string := " ansible_connection=ssh ansible_user="

  datatype HostsConfig = HostsConfig(sshUser: Option<string>, slaveIps: seq<Option<string>>)

  /** A fresh configuration has no slave IPs. */
  function NewHostsConfig(sshUser: Option<string>): (h: HostsConfig)
    ensures h.sshUser == sshUser && |h.slaveIps| == 0
  {
    HostsConfig(sshUser, [])
  }

  /** `addSlaveIp`: the IP goes to the end; duplicates are kept. */
  function AddSlaveIp(h: HostsConfig, ip: Option<string>): (r: HostsConfig)
    ensures r.sshUser == h.sshUser
    ensures |r.slaveIps| == |h.slaveIps| + 1 && r.slaveIps[..|h.slaveIps|] == h.slaveIps
    ensures r.slaveIps[|h.slaveIps|] == ip
  {
    h.(slaveIps := h.slaveIps + [ip])
  }

  function SlaveLine(ip: Option<string>, user: Option<string>): string {
    Text(ip) + SlaveSuffix + Text(user) + "\n"
  }

  function SlaveLines(ips: seq<Option<string>>, user: Option<string>): string {
    if |ips| == 0 then "" else SlaveLines(ips[..|ips| - 1], user) + SlaveLine(ips[|ips| - 1], user)
  }

  /** `toString`: the header, both sections, then the slave lines. */
  function ToString(h: HostsConfig): (r: string)
    ensures |h.slaveIps| == 0 ==> r == Header + Sections
  {
    Header + Sections + SlaveLines(h.slaveIps, h.sshUser)
  }

  /** Whatever the slaves, the text starts with the header and both section headings. */
  lemma ToStringStartsWithPreamble(h: HostsConfig)
    ensures |ToString(h)| >= |Header + Sections| && ToString(h)[..|Header + Sections|] == Header + Sections
  {
    var hs := Header + Sections;
    assert ToString(h) == hs + SlaveLines(h.slaveIps, h.sshUser);
  }

  /** Adding an IP appends exactly its line and leaves the text before it alone. */
  lemma AddSlaveIpAppendsLine(h: HostsConfig, ip: Option<string>)
    ensures ToString(AddSlaveIp(h, ip)) == ToString(h) + SlaveLine(ip, h.sshUser)
  {
    SlaveLinesSnoc(h.slaveIps, ip, h.sshUser);
    AppendAssociates(Header + Sections, SlaveLines(h.slaveIps, h.sshUser), SlaveLine(ip, h.sshUser));
  }

  lemma SlaveLinesSnoc(ips: seq<Option<string>>, ip: Option<string>, user: Option<string>)
    ensures SlaveLines(ips + [ip], user) == SlaveLines(ips, user) + SlaveLine(ip, user)
  {
    var all := ips + [ip];
    assert all[..|all| - 1] == ips;
  }

  lemma AppendAssociates(a: string, b: string, c: string)
    ensures a + (b + c) == (a + b) + c
  {
  }

  // ---------------------------------------------------------------------------
  // Reading the slave section back
  // ---------------------------------------------------------------------------

  /** The IPs as printed. */
  function Shown(ips: seq<Option<string>>): (r: seq<string>)
    ensures |r| == |ips| && forall i :: 0 <= i < |ips| ==> r[i] == Text(ips[i])
  {
    seq(|ips|, i requires 0 <= i < |ips| => Text(ips[i]))
  }

  /** The text of a line up to its first blank. */
  function FirstWord(line: string): string {
    line[..FirstIndex(line, ' ')]
  }

  /** The first word of every line. */
  function FirstWords(lines: seq<string>): (r: seq<string>)
    ensures |r| == |lines| && forall i :: 0 <= i < |lines| ==> r[i] == FirstWord(lines[i])
  {
    seq(|lines|, i requires 0 <= i < |lines| => FirstWord(lines[i]))
  }

  /** The slave IPs a reader finds in an inventory: the first word of each line after the sections. */
  function SlaveIpsOf(text: string): seq<string> {
    if |text| <= |Header + Sections| then []
    else FirstWords(Split(text[|Header + Sections|..], '\n'))
  }

  /** The slave lines without their line breaks. */
  function LineTexts(ips: seq<Option<string>>, user: Option<string>): (r: seq<string>)
    ensures |r| == |ips|
    ensures forall i :: 0 <= i < |ips| ==> r[i] == Text(ips[i]) + SlaveSuffix + Text(user)
  {
    seq(|ips|, i requires 0 <= i < |ips| => Text(ips[i]) + SlaveSuffix + Text(user))
  }

  /** The slave lines are the line texts, each ended by a line break. */
  lemma SlaveLinesJoined(ips: seq<Option<string>>, user: Option<string>)
    requires |ips| > 0
    ensures SlaveLines(ips, user) == Join(LineTexts(ips, user), '\n') + "\n"
  {
    SlaveLinesTerminated(ips, user);
    TerminatedIsJoin(LineTexts(ips, user), '\n');
  }

  /** Every field followed by the delimiter, in order. */
  function Terminated(fs: seq<string>, d: char): string {
    if |fs| == 0 then [] else Terminated(fs[..|fs| - 1], d) + fs[|fs| - 1] + [d]
  }

  lemma {:induction false} SlaveLinesTerminated(ips: seq<Option<string>>, user: Option<string>)
    ensures SlaveLines(ips, user) == Terminated(LineTexts(ips, user), '\n')
  {
    if |ips| > 0 {
      var init := ips[..|ips| - 1];
      var ls := LineTexts(ips, user);
      SlaveLinesTerminated(init, user);
      assert LineTexts(init, user) == ls[..|ls| - 1];
      assert SlaveLine(ips[|ips| - 1], user) == ls[|ls| - 1] + ['\n'];
    }
  }

  lemma {:induction false} TerminatedIsJoin(fs: seq<string>, d: char)
    requires |fs| > 0
    ensures Terminated(fs, d) == Join(fs, d) + [d]
  {
    var n := |fs|;
    if n == 1 {
      assert Terminated(fs[..0], d) == [];
    } else {
      var init := fs[..n - 1];
      TerminatedIsJoin(init, d);
      JoinAppend(init, fs[n - 1], d);
      assert init + [fs[n - 1]] == fs;
      var a := Join(init, d);
      assert (a + [d]) + fs[n - 1] + [d] == (a + [d] + fs[n - 1]) + [d];
    }
  }

  /** Joining one more field adds a delimiter and the field. */
  lemma {:induction false} JoinAppend(fs: seq<string>, last: string, d: char)
    requires |fs| >= 1
    ensures Join(fs + [last], d) == Join(fs, d) + [d] + last
  {
    if |fs| > 1 {
      assert (fs + [last])[1..] == fs[1..] + [last];
      JoinAppend(fs[1..], last, d);
    }
  }

  /** No line text holds a line break when neither the IPs nor the user do. */
  lemma LineTextsSeparate(ips: seq<Option<string>>, user: Option<string>)
    requires forall i :: 0 <= i < |ips| ==> '\n' !in Text(ips[i])
    requires '\n' !in Text(user)
    ensures forall i :: 0 <= i < |ips| ==> '\n' !in LineTexts(ips, user)[i] && LineTexts(ips, user)[i] != ""
  {
    var ls := LineTexts(ips, user);
    forall i | 0 <= i < |ips|
      ensures '\n' !in ls[i] && ls[i] != ""
    {
      assert ls[i] == Text(ips[i]) + (SlaveSuffix + Text(user));
      assert '\n' !in SlaveSuffix;
    }
  }

  /** The first word of a slave line is its IP, when the IP has no blank in it. */
  lemma FirstWordIsIp(ip: string, user: string)
    requires ' ' !in ip
    ensures var line := ip + SlaveSuffix + user; line[..FirstIndex(line, ' ')] == ip
  {
    var line := ip + SlaveSuffix + user;
    assert line[|ip|] == ' ';
    assert line[..|ip|] == ip;
  }

  lemma FirstWordsOfLines(ips: seq<Option<string>>, user: Option<string>)
    requires forall i :: 0 <= i < |ips| ==> ' ' !in Text(ips[i])
    ensures FirstWords(LineTexts(ips, user)) == Shown(ips)
  {
    var ls := LineTexts(ips, user);
    forall i | 0 <= i < |ips|
      ensures FirstWord(ls[i]) == Text(ips[i])
    {
      FirstWordIsIp(Text(ips[i]), Text(user));
    }
  }

  /**
    A reader recovers the slave IPs, in order and with duplicates, from the text, as long as
    no IP holds a blank or a line break and the user holds no line break.
  */
  lemma SlaveIpsRoundTrip(h: HostsConfig)
    requires forall i :: 0 <= i < |h.slaveIps| ==> ' ' !in Text(h.slaveIps[i]) && '\n' !in Text(h.slaveIps[i])
    requires '\n' !in Text(h.sshUser)
    ensures SlaveIpsOf(ToString(h)) == Shown(h.slaveIps)
  {
    var text := ToString(h);
    var body := SlaveLines(h.slaveIps, h.sshUser);
    assert text[|Header + Sections|..] == body;
    if |h.slaveIps| > 0 {
      var ls := LineTexts(h.slaveIps, h.sshUser);
      SlaveLinesJoined(h.slaveIps, h.sshUser);
      LineTextsSeparate(h.slaveIps, h.sshUser);
      SplitWithFinalDelimiter(ls, '\n');
      FirstWordsOfLines(h.slaveIps, h.sshUser);
    }
  }

  /** Fields joined and ended by the delimiter split back into the fields: the last, empty field is dropped. */
  lemma SplitWithFinalDelimiter(fs: seq<string>, d: char)
    requires |fs| >= 1 && forall i :: 0 <= i < |fs| ==> d !in fs[i] && fs[i] != ""
    ensures Split(Join(fs, d) + [d], d) == fs
  {
    var j := Join(fs, d);
    var s := j + [d];
    FieldsOfJoin(fs, d);
    FieldsAppend(j, "", d);
    assert j + [d] + "" == s;
    var all := fs + [""];
    assert Fields(s, d) == all;
    assert s[|s| - 1] == d;
    assert Split(s, d) == DropTrailingEmpty(all);
    assert all[..|all| - 1] == fs;
    assert DropTrailingEmpty(all) == DropTrailingEmpty(fs);
  }
}
