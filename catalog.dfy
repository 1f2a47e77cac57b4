/** The fixed tables: the interactive menu's `MODELS`, the command-line tool's
    `MODEL_MAP` (command and size to model folder) and `SPEAKER_MAP`, with the lookups
    made against them. */
module Catalog {
  import opened Strings
  import opened Optional

  /** What a menu entry opens. */
  datatype Mode = Custom | Design | CloneManager

  datatype ModelInfo = ModelInfo(name: string, folder: string, mode: Mode, outputSubfolder: string)

  /** The command-line subcommands. */
  datatype Command = Speak | DesignCmd | Clone

  const ProCustom: string := "Qwen3-TTS-12Hz-1.7B-CustomVoice-8bit"
  const ProDesign: string := "Qwen3-TTS-12Hz-1.7B-VoiceDesign-8bit"
  const ProBase: string := "Qwen3-TTS-12Hz-1.7B-Base-8bit"
  const LiteCustom: string := "Qwen3-TTS-12Hz-0.6B-CustomVoice-8bit"
  const LiteBase: string := "Qwen3-TTS-12Hz-0.6B-Base-8bit"

  /** `MODELS`, in the menu's key order. */
  const Models: seq<(string, ModelInfo)> := [
    ("1", ModelInfo("Custom Voice", ProCustom, Custom, "CustomVoice")),
    ("2", ModelInfo("Voice Design", ProDesign, Design, "VoiceDesign")),
    ("3", ModelInfo("Voice Cloning", ProBase, CloneManager, "Clones")),
    ("4", ModelInfo("Custom Voice", LiteCustom, Custom, "CustomVoice")),
    ("5", ModelInfo("Voice Cloning", LiteBase, CloneManager, "Clones"))
  ]

  /** `SPEAKER_MAP`, in its insertion order. */
  const SpeakerMap: seq<(string, seq<string>)> := [
    ("English", ["Ryan", "Aiden", "Ethan", "Chelsie", "Serena", "Vivian"]),
    ("Chinese", ["Vivian", "Serena", "Uncle_Fu", "Dylan", "Eric"]),
    ("Japanese", ["Ono_Anna"]),
    ("Korean", ["Sohee"])
  ]

  const DefaultSpeaker: string := "Vivian"

  /** `name` is listed under some language of `SPEAKER_MAP`. */
  predicate IsSpeaker(name: string)
  {
    exists i :: 0 <= i < |SpeakerMap| && name in SpeakerMap[i].1
  }

  /** `MODEL_MAP[command].get(size)` */
  function CliFolder(command: Command, size: string): (folder: Option<string>)
    ensures folder.Some? <==> (size == "pro" || (size == "lite" && command != DesignCmd))
  {
    match command
    case Speak =>
      if size == "pro" then Some(ProCustom) else if size == "lite" then Some(LiteCustom) else None
    case DesignCmd =>
      if size == "pro" then Some(ProDesign) else None
    case Clone =>
      if size == "pro" then Some(ProBase) else if size == "lite" then Some(LiteBase) else None
  }

  /** The interactive mode that serves the same purpose as a command. */
  function ModeOf(command: Command): Mode
  {
    match command
    case Speak => Custom
    case DesignCmd => Design
    case Clone => CloneManager
  }

  /** Both front ends load the same models: every folder the command-line tool can pick
      is the folder of a menu entry of the matching mode. */
  lemma CliFoldersAreMenuModels(command: Command, size: string)
    requires CliFolder(command, size).Some?
    ensures exists i :: 0 <= i < |Models| && Models[i].1.folder == CliFolder(command, size).value
                        && Models[i].1.mode == ModeOf(command)
  {
    var f := CliFolder(command, size).value;
    var i := if f == ProCustom then 0 else if f == ProDesign then 1 else if f == ProBase then 2
             else if f == LiteCustom then 3 else 4;
    assert Models[i].1.folder == f && Models[i].1.mode == ModeOf(command);
  }

  /** What `main_menu` does with a selection line. */
  datatype MenuAction = Quit | Invalid | Open(key: string, info: ModelInfo)

  function MenuLookup(key: string, i: nat): (r: Option<ModelInfo>)
    requires i <= |Models|
    ensures r.Some? <==> exists j :: i <= j < |Models| && Models[j].0 == key
    ensures r.Some? ==> exists j :: i <= j < |Models| && Models[j] == (key, r.value)
    decreases |Models| - i
  {
    if i == |Models| then None
    else if Models[i].0 == key then Some(Models[i].1)
    else MenuLookup(key, i + 1)
  }

  /** `choice = input(...).strip().lower()`, then `q`, a key of `MODELS`, or invalid. */
  function MenuChoice(line: string): (r: MenuAction)
    ensures r.Quit? <==> Lower(Strip(line)) == "q"
    ensures r.Open? ==> r.key == Lower(Strip(line))
                        && exists j :: 0 <= j < |Models| && Models[j] == (r.key, r.info)
    ensures r.Invalid? <==> Lower(Strip(line)) != "q" && forall j :: 0 <= j < |Models| ==> Models[j].0 != Lower(Strip(line))
  {
    var choice := Lower(Strip(line));
    if choice == "q" then Quit
    else match MenuLookup(choice, 0)
      case None => Invalid
      case Some(info) => Open(choice, info)
  }

  /** The speaker choice of the custom-voice session: the stripped input when it names a
      speaker of some language (case-sensitively), otherwise "Vivian". */
  method SelectSpeaker(line: string) returns (speaker: string)
    ensures IsSpeaker(Strip(line)) ==> speaker == Strip(line)
    ensures !IsSpeaker(Strip(line)) ==> speaker == DefaultSpeaker
    ensures IsSpeaker(speaker)
  {
    var userChoice := Strip(line);
    speaker := DefaultSpeaker;
    assert DefaultSpeaker in SpeakerMap[0].1;
    var i := 0;
    while i < |SpeakerMap|
      invariant 0 <= i <= |SpeakerMap|
      invariant speaker == DefaultSpeaker
      invariant forall j :: 0 <= j < i ==> userChoice !in SpeakerMap[j].1
    {
      if userChoice in SpeakerMap[i].1 {
        speaker := userChoice;
        assert IsSpeaker(userChoice);
        return;
      }
      i := i + 1;
    }
  }
}
