/** OpenSSH-style `scp` operands: inferring the transfer, and printing it again. */
module ScpOperands {
  import opened ByteStrings
  import opened Results

  datatype Transfer =
    | Upload(local: Bytes, remote: Bytes)
    | UploadMany(locals: seq<Bytes>, remote: Bytes)
    | Download(remote: Bytes, local: Bytes)
    | DownloadMany(remotes: seq<Bytes>, local: Bytes)

  datatype Remote = Remote(target: Bytes, path: Bytes)

  // ----- operands

  predicate Letter(c: char) {
    'a' <= c <= 'z' || 'A' <= c <= 'Z'
  }

  /** `looks_like_windows_drive`. */
  predicate WindowsDrive(value: Bytes) {
    |value| == 1 && Letter(value[0])
  }

  /** `split_scp_remote_operand`. */
  function SplitRemote(operand: Bytes): Option<Remote> {
    var colon := Find(operand, ':', 0);
    if colon < 0 then None
    else
      var target, remote := operand[..colon], operand[colon + 1..];
      if target == [] || remote == [] || WindowsDrive(target) then None else Some(Remote(target, remote))
  }

  /** What can stand before the colon of a remote operand. */
  predicate TargetName(target: Bytes) {
    target != [] && ':' !in target && !WindowsDrive(target)
  }

  function Print(target: Bytes, path: Bytes): Bytes {
    target + [':'] + path
  }

  /** Splitting and printing a remote operand undo each other. */
  lemma SplitPrint(target: Bytes, path: Bytes)
    requires TargetName(target) && path != []
    ensures SplitRemote(Print(target, path)) == Some(Remote(target, path))
  {
    var operand := Print(target, path);
    assert operand[0..] == operand == target + ([':'] + path);
    FindSeparator(operand, 0, target, ':', path);
    assert operand[..|target|] == target && operand[|target| + 1..] == path;
  }

  lemma PrintSplit(operand: Bytes)
    requires SplitRemote(operand).Some?
    ensures var r := SplitRemote(operand).value;
      TargetName(r.target) && r.path != [] && Print(r.target, r.path) == operand
  {
    var colon := Find(operand, ':', 0);
    assert operand == operand[..colon] + [':'] + operand[colon + 1..];
  }

  /** A drive-letter path is a local operand, whatever follows the colon. */
  lemma DrivePathIsLocal(drive: char, rest: Bytes)
    requires Letter(drive)
    ensures SplitRemote([drive, ':'] + rest).None?
  {
    var operand := [drive, ':'] + rest;
    assert operand[0..] == operand == [drive] + ([':'] + rest);
    FindSeparator(operand, 0, [drive], ':', rest);
    assert operand[..1] == [drive];
  }

  // ----- inference

  predicate AllLocal(operands: seq<Bytes>) {
    forall i :: 0 <= i < |operands| ==> SplitRemote(operands[i]).None?
  }

  predicate AllRemote(operands: seq<Bytes>) {
    forall i :: 0 <= i < |operands| ==> SplitRemote(operands[i]).Some?
  }

  predicate OneTarget(operands: seq<Bytes>)
    requires AllRemote(operands)
  {
    forall i :: 0 <= i < |operands| ==> SplitRemote(operands[i]).value.target == SplitRemote(operands[0]).value.target
  }

  function Paths(operands: seq<Bytes>): (paths: seq<Bytes>)
    requires AllRemote(operands)
    ensures |paths| == |operands|
    ensures forall i :: 0 <= i < |operands| ==> paths[i] == SplitRemote(operands[i]).value.path
  {
    seq(|operands|, i requires 0 <= i < |operands| => SplitRemote(operands[i]).value.path)
  }

  predicate IsUpload(sources: seq<Bytes>, destination: Bytes) {
    SplitRemote(destination).Some? && AllLocal(sources)
  }

  predicate IsDownload(sources: seq<Bytes>) {
    sources != [] && AllRemote(sources)
  }

  /** What the parser keeps: the host and target options, and the transfer. */
  class ScpParse {
    var host: Option<Bytes>
    var target: Option<Bytes>
    var transfer: Option<Transfer>

    constructor (host: Option<Bytes>, target: Option<Bytes>, transfer: Option<Transfer>)
      ensures this.host == host && this.target == target && this.transfer == transfer
    {
      this.host, this.target, this.transfer := host, target, transfer;
    }

    /** `set_positional_ssh_target` and `set_explicit_ssh_target`. */
    method SetPositionalTarget(name: Bytes) returns (ok: bool)
      modifies this`target
      ensures ok <==> host.None? && old(target).None?
      ensures target == if ok then Some(name) else old(target)
    {
      if host.Some? {
        return false;
      }
      if target.Some? {
        return false;
      }
      target := Some(name);
      return true;
    }

    /** `set_scp_transfer`. */
    method SetTransfer(next: Transfer) returns (ok: bool)
      modifies this`transfer
      ensures ok <==> old(transfer).None?
      ensures transfer == if ok then Some(next) else old(transfer)
    {
      if transfer.Some? {
        return false;
      }
      transfer := Some(next);
      return true;
    }

    /** `infer_scp_transfer_from_operands`. */
    method Infer(sources: seq<Bytes>, destination: Bytes) returns (ok: bool)
      requires sources != [] && transfer.None?
      modifies this`target, this`transfer
      ensures ok <==>
        && (IsUpload(sources, destination) ==> host.None? && old(target).None?)
        && (IsDownload(sources) ==> OneTarget(sources) && host.None? && old(target).None?)
      ensures ok && IsUpload(sources, destination) ==>
        var r := SplitRemote(destination).value;
        target == Some(r.target) &&
        transfer == Some(if |sources| == 1 then Upload(sources[0], r.path) else UploadMany(sources, r.path))
      ensures ok && IsDownload(sources) ==>
        target == Some(SplitRemote(sources[0]).value.target) &&
        transfer == Some(if |sources| == 1 then Download(Paths(sources)[0], destination) else DownloadMany(Paths(sources), destination))
      ensures (!ok || !(IsUpload(sources, destination) || IsDownload(sources))) ==> target == old(target) && transfer.None?
    {
      hide SplitRemote;
      assert !(AllLocal(sources) && AllRemote(sources)) by { assert sources[0] == sources[0]; }
      var remote := SplitRemote(destination);
      if remote.Some? && AllLocal(sources) {
        ok := SetPositionalTarget(remote.value.target);
        if !ok {
          return;
        }
        if |sources| == 1 {
          ok := SetTransfer(Upload(sources[0], remote.value.path));
        } else {
          ok := SetTransfer(UploadMany(sources, remote.value.path));
        }
        return;
      }
      if AllRemote(sources) {
        if !OneTarget(sources) {
          return false;
        }
        ok := SetPositionalTarget(SplitRemote(sources[0]).value.target);
        if !ok {
          return;
        }
        var remotes := Paths(sources);
        if |remotes| == 1 {
          ok := SetTransfer(Download(remotes[0], destination));
        } else {
          ok := SetTransfer(DownloadMany(remotes, destination));
        }
        return;
      }
      return true;
    }

    /** `apply_scp_positionals`. */
    method ApplyPositionals(positionals: seq<Bytes>) returns (ok: bool)
      modifies this`target, this`transfer
      ensures old(transfer).Some? ==>
        && transfer == old(transfer)
        && (ok <==> positionals == [] || (|positionals| == 1 && host.None? && old(target).None?))
        && target == (if ok && |positionals| == 1 then Some(positionals[0]) else old(target))
      ensures old(transfer).None? && |positionals| < 2 ==> ok && target == old(target) && transfer.None?
      ensures (old(transfer).None? && |positionals| >= 2 && ok && transfer.Some?) ==>
        && host.None? && old(target).None? && target.Some?
        && TransferArgs(transfer.value, target.value + [':']) == positionals
      ensures (old(transfer).None? && |positionals| >= 2) ==>
        (ok && transfer.Some? <==> host.None? && old(target).None? && Transferable(positionals))
    {
      hide SplitRemote, IsUpload, IsDownload, OneTarget, TransferArgs;
      if transfer.Some? {
        if positionals == [] {
          return true;
        }
        if |positionals| == 1 {
          ok := SetPositionalTarget(positionals[0]);
          return;
        }
        return false;
      }
      if |positionals| < 2 {
        return true;
      }
      var sources, destination := positionals[..|positionals| - 1], positionals[|positionals| - 1];
      NotBoth(sources, destination);
      ok := Infer(sources, destination);
      if ok && IsUpload(sources, destination) {
        UploadPrints(sources, destination);
      }
      if ok && IsDownload(sources) {
        DownloadPrints(sources, destination);
      }
      assert sources + [destination] == positionals;
    }
  }

  /** Which operand lists denote a transfer. */
  predicate Transferable(positionals: seq<Bytes>)
    requires |positionals| >= 2
  {
    var sources, destination := positionals[..|positionals| - 1], positionals[|positionals| - 1];
    IsUpload(sources, destination) || (IsDownload(sources) && OneTarget(sources))
  }

  // ----- the command line

  function Prefixed(prefix: Bytes, paths: seq<Bytes>): (operands: seq<Bytes>)
    ensures |operands| == |paths|
    ensures forall i :: 0 <= i < |paths| ==> operands[i] == prefix + paths[i]
  {
    seq(|paths|, i requires 0 <= i < |paths| => prefix + paths[i])
  }

  /** What `append_transfer_args` appends. */
  function TransferArgs(t: Transfer, prefix: Bytes): seq<Bytes> {
    match t
    case Upload(local, remote) => [local, prefix + remote]
    case UploadMany(locals, remote) => locals + [prefix + remote]
    case Download(remote, local) => [prefix + remote, local]
    case DownloadMany(remotes, local) => Prefixed(prefix, remotes) + [local]
  }

  lemma UploadPrints(sources: seq<Bytes>, destination: Bytes)
    requires IsUpload(sources, destination) && sources != []
    ensures var r := SplitRemote(destination).value;
      TransferArgs(if |sources| == 1 then Upload(sources[0], r.path) else UploadMany(sources, r.path), r.target + [':'])
        == sources + [destination]
  {
    hide SplitRemote, AllLocal;
    PrintSplit(destination);
  }

  lemma DownloadPrints(sources: seq<Bytes>, destination: Bytes)
    requires IsDownload(sources) && OneTarget(sources)
    ensures var prefix := SplitRemote(sources[0]).value.target + [':'];
      TransferArgs(if |sources| == 1 then Download(Paths(sources)[0], destination) else DownloadMany(Paths(sources), destination), prefix)
        == sources + [destination]
  {
    hide SplitRemote;
    var prefix := SplitRemote(sources[0]).value.target + [':'];
    forall i | 0 <= i < |sources| ensures prefix + Paths(sources)[i] == sources[i] {
      PrintSplit(sources[i]);
    }
    assert Prefixed(prefix, Paths(sources)) == sources;
  }

  lemma NotBoth(sources: seq<Bytes>, destination: Bytes)
    requires sources != []
    ensures !(IsUpload(sources, destination) && IsDownload(sources))
  {
    hide SplitRemote;
    assert AllLocal(sources) ==> SplitRemote(sources[0]).None?;
  }

  datatype Auth = PasswordPrompt | Password | PrivateKey(path: Bytes) | Agent

  const PASSWORD_OPTION: Bytes := "PreferredAuthentications=password,keyboard-interactive"

  /** The options that the authentication method and `-r` call for. */
  function CommonArgs(auth: Auth, recursive: bool): seq<Bytes> {
    (if recursive then ["-r"] else [])
    + match auth
      case PasswordPrompt => ["-o", PASSWORD_OPTION]
      case Password => ["-o", PASSWORD_OPTION]
      case PrivateKey(path) => ["-i", path]
      case Agent => []
  }

  /** The options that go before the operands. */
  function OptionArgs(openssh: seq<Bytes>, auth: Auth, recursive: bool, username: Option<Bytes>, port: Option<nat>): seq<Bytes> {
    openssh + CommonArgs(auth, recursive)
    + (if username.Some? then ["-o", "User=" + username.value] else [])
    + (if port.Some? then ["-P", Decimal(port.value)] else [])
  }

  /** `append_common_args`. */
  method AppendCommonArgs(args: seq<Bytes>, auth: Auth, recursive: bool) returns (out: seq<Bytes>)
    ensures out == args + CommonArgs(auth, recursive)
  {
    hide PASSWORD_OPTION;
    out := args;
    if recursive {
      out := out + ["-r"];
    }
    match auth {
      case PasswordPrompt =>
        out := out + ["-o"] + [PASSWORD_OPTION];
      case Password =>
        out := out + ["-o"] + [PASSWORD_OPTION];
      case PrivateKey(path) =>
        out := out + ["-i"] + [path];
      case Agent =>
    }
  }

  /** `append_transfer_args`. */
  method AppendTransferArgs(args: seq<Bytes>, t: Transfer, prefix: Bytes) returns (out: seq<Bytes>)
    ensures out == args + TransferArgs(t, prefix)
  {
    out := args;
    match t {
      case Upload(local, remote) =>
        out := out + [local];
        out := out + [prefix + remote];
      case UploadMany(locals, remote) =>
        out := out + locals;
        out := out + [prefix + remote];
      case Download(remote, local) =>
        out := out + [prefix + remote];
        out := out + [local];
      case DownloadMany(remotes, local) =>
        out := out + Prefixed(prefix, remotes);
        out := out + [local];
    }
  }

  /** `scp_command_for_target`: the options first, then exactly the transfer's operands. */
  method ScpCommand(openssh: seq<Bytes>, auth: Auth, recursive: bool, username: Option<Bytes>, port: Option<nat>,
                    target: Bytes, t: Transfer) returns (args: seq<Bytes>)
    ensures args == OptionArgs(openssh, auth, recursive, username, port) + TransferArgs(t, target + [':'])
  {
    hide TransferArgs, CommonArgs;
    args := AppendCommonArgs(openssh, auth, recursive);
    if username.Some? {
      args := args + ["-o"] + ["User=" + username.value];
    }
    if port.Some? {
      args := args + ["-P"] + [Decimal(port.value)];
    }
    args := AppendTransferArgs(args, t, target + [':']);
  }

  /** Parsing operands and generating the command: it ends with the operands as they were given. */
  method ParseAndPrint(positionals: seq<Bytes>, openssh: seq<Bytes>, auth: Auth, recursive: bool,
                       username: Option<Bytes>, port: Option<nat>) returns (r: Result<seq<Bytes>>)
    requires |positionals| >= 2
    ensures r.Ok? <==> Transferable(positionals)
    ensures r.Ok? ==> r.value == OptionArgs(openssh, auth, recursive, username, port) + positionals
  {
    hide Transferable, TransferArgs, OptionArgs;
    var parse := new ScpParse(None, None, None);
    var ok := parse.ApplyPositionals(positionals);
    if !ok || parse.transfer.None? {
      return Err;
    }
    var args := ScpCommand(openssh, auth, recursive, username, port, parse.target.value, parse.transfer.value);
    return Ok(args);
  }

  // ----- the other direction

  /** Transfers that the parser can produce for a target. */
  ghost predicate WellFormed(t: Transfer, target: Bytes) {
    && TargetName(target)
    && match t
       case Upload(local, remote) => SplitRemote(local).None? && remote != []
       case UploadMany(locals, remote) => |locals| >= 2 && AllLocal(locals) && remote != []
       case Download(remote, _) => remote != []
       case DownloadMany(remotes, _) => |remotes| >= 2 && forall i :: 0 <= i < |remotes| ==> remotes[i] != []
  }

  /** Every well-formed transfer is read back from its own operands. */
  method PrintAndParse(t: Transfer, target: Bytes) returns (back: Option<Transfer>, name: Option<Bytes>)
    requires WellFormed(t, target)
    ensures back == Some(t) && name == Some(target)
  {
    hide SplitRemote, TargetName;
    var operands := TransferArgs(t, target + [':']);
    var sources, destination := operands[..|operands| - 1], operands[|operands| - 1];
    OperandsReadBack(t, target, sources, destination);
    NotBoth(sources, destination);
    var parse := new ScpParse(None, None, None);
    var ok := parse.Infer(sources, destination);
    return parse.transfer, parse.target;
  }

  lemma OperandsReadBack(t: Transfer, target: Bytes, sources: seq<Bytes>, destination: Bytes)
    requires WellFormed(t, target) && TransferArgs(t, target + [':']) == sources + [destination]
    ensures sources != []
    ensures (t.Upload? || t.UploadMany?) ==>
      && IsUpload(sources, destination) && SplitRemote(destination) == Some(Remote(target, t.remote))
      && t == if |sources| == 1 then Upload(sources[0], t.remote) else UploadMany(sources, t.remote)
    ensures (t.Download? || t.DownloadMany?) ==>
      && IsDownload(sources) && OneTarget(sources) && SplitRemote(sources[0]).value.target == target
      && t == if |sources| == 1 then Download(Paths(sources)[0], destination) else DownloadMany(Paths(sources), destination)
  {
    hide SplitRemote, TargetName;
    var prefix := target + [':'];
    var operands := TransferArgs(t, prefix);
    assert sources == operands[..|operands| - 1] && destination == operands[|operands| - 1];
    match t {
      case Upload(local, remote) =>
        SplitPrint(target, remote);
        assert sources == [local];
      case UploadMany(locals, remote) =>
        SplitPrint(target, remote);
        assert sources == locals;
      case Download(remote, local) =>
        SplitPrint(target, remote);
        assert sources == [prefix + remote];
        assert Paths(sources) == [remote];
      case DownloadMany(remotes, local) =>
        assert sources == Prefixed(prefix, remotes);
        forall i | 0 <= i < |sources| ensures SplitRemote(sources[i]) == Some(Remote(target, remotes[i])) {
          SplitPrint(target, remotes[i]);
        }
        assert Paths(sources) == remotes;
    }
  }
}
