/** Capture settings: `CameraParameters` with its defaults and audio
    selection, and the `NativeEncodeConfig` derived from them, whose codec
    follows the output path's URL scheme. */
module EncodeConfig {
  import CSharp

  const RecordFpsDefault: int := 30
  const RecordVideoBitrateDefault: int := 10240000
  const RecordAudioBitrateDefault: int := 128000
  const RecordAudioSampleRateDefault: int := 16000

  /** `NRVideoCapture.AudioState`. */
  datatype AudioState = MicAudio | ApplicationAudio | ApplicationAndMicAudio | NoAudio

  datatype BlendMode = Blend | RGBOnly | VirtualOnly | WidescreenBlend

  datatype CaptureSide = Single | Both

  datatype CamMode = PhotoMode | VideoMode

  datatype PixelFormat = BGRA32 | NV21 | JPEG | PNG

  /** The fields of `CameraParameters` the encoder reads (the media
      projection object is left out). */
  datatype CameraParameters = CameraParameters(
    camMode: CamMode,
    hologramOpacity: real,
    frameRate: int,
    captureSide: CaptureSide,
    cameraResolutionWidth: int,
    cameraResolutionHeight: int,
    pixelFormat: PixelFormat,
    blendMode: BlendMode,
    audioState: AudioState,
    lockRoll: bool)

  /** The constructor's defaults. */
  function NewCameraParameters(webCamMode: CamMode, mode: BlendMode): (p: CameraParameters)
    ensures p.camMode == webCamMode && p.blendMode == mode
    ensures p.hologramOpacity == 1.0 && p.frameRate == RecordFpsDefault
    ensures p.cameraResolutionWidth == 1280 && p.cameraResolutionHeight == 720
    ensures p.pixelFormat == PNG && p.captureSide == Single && !p.lockRoll
    ensures CaptureAudioMic(p) && CaptureAudioApplication(p)
  {
    CameraParameters(webCamMode, 1.0, RecordFpsDefault, Single, 1280, 720, PNG, mode, ApplicationAndMicAudio, false)
  }

  /** `CaptureAudioMic`. */
  predicate CaptureAudioMic(p: CameraParameters) {
    p.audioState == MicAudio || p.audioState == ApplicationAndMicAudio
  }

  /** `CaptureAudioApplication`. */
  predicate CaptureAudioApplication(p: CameraParameters) {
    p.audioState == ApplicationAudio || p.audioState == ApplicationAndMicAudio
  }

  /** The audio state is determined by which sources it captures: each of
      the four states selects a different pair, and `NoAudio` selects
      neither. */
  lemma AudioSelectionIsFaithful(p: CameraParameters, q: CameraParameters)
    ensures (CaptureAudioMic(p), CaptureAudioApplication(p)) == (CaptureAudioMic(q), CaptureAudioApplication(q))
      ==> p.audioState == q.audioState
    ensures p.audioState == NoAudio <==> !CaptureAudioMic(p) && !CaptureAudioApplication(p)
  {
  }

  /** `string.StartsWith` on plain ASCII text. */
  predicate StartsWith(s: string, prefix: string) {
    |prefix| <= |s| && s[..|prefix|] == prefix
  }

  const RtmpScheme: string := "rtmp://"
  const RtpScheme: string := "rtp://"

  /** `CodecType`: Local = 0, Rtmp = 1, Rtp = 2. */
  const CodecLocal: int := 0
  const CodecRtmp: int := 1
  const CodecRtp: int := 2

  /** `GetCodecTypeByPath`: a streaming URL selects its protocol, anything
      else is a local file. */
  function GetCodecTypeByPath(path: string): (c: int)
    ensures c == CodecRtmp <==> StartsWith(path, RtmpScheme)
    ensures c == CodecRtp <==> StartsWith(path, RtpScheme)
    ensures c == CodecLocal <==> !StartsWith(path, RtmpScheme) && !StartsWith(path, RtpScheme)
  {
    SchemesExclusive(path);
    if StartsWith(path, RtmpScheme) then CodecRtmp
    else if StartsWith(path, RtpScheme) then CodecRtp
    else CodecLocal
  }

  /** No path starts with both schemes (they differ at index 2), so the order
      of the two tests does not matter. */
  lemma SchemesExclusive(path: string)
    ensures !(StartsWith(path, RtmpScheme) && StartsWith(path, RtpScheme))
  {
    assert StartsWith(path, RtmpScheme) ==> path[2] == RtmpScheme[2] == 'm';
    assert StartsWith(path, RtpScheme) ==> path[2] == RtpScheme[2] == 'p';
  }

  /** The scheme prefix alone decides the codec: appending anything to a
      streaming URL's scheme keeps its codec. */
  lemma CodecOfSchemePlusRest(rest: string)
    ensures GetCodecTypeByPath(RtmpScheme + rest) == CodecRtmp
    ensures GetCodecTypeByPath(RtpScheme + rest) == CodecRtp
  {
    assert (RtmpScheme + rest)[..|RtmpScheme|] == RtmpScheme;
    assert (RtpScheme + rest)[..|RtpScheme|] == RtpScheme;
  }

  /** `NativeEncodeConfig`. */
  datatype NativeEncodeConfig = NativeEncodeConfig(
    width: int,
    height: int,
    bitRate: int,
    fps: int,
    codecType: int,
    outPutPath: string,
    useStepTime: int,
    useAlpha: bool,
    useLinnerTexture: bool,
    addMicphoneAudio: bool,
    addInternalAudio: bool,
    audioSampleRate: int,
    audioBitRate: int)

  /** The codec always agrees with the output path. */
  predicate PathConsistent(c: NativeEncodeConfig) {
    c.codecType == GetCodecTypeByPath(c.outPutPath)
  }

  /** The constructor. `linearColorSpace` is the project's colour-space
      setting. `hologramOpacity < float.Epsilon` holds exactly for opacities
      at or below zero, since `float.Epsilon` is the smallest positive float;
      the model states it that way. The half height is `(int)(0.5 * h)`,
      which truncates toward zero. */
  function NewEncodeConfig(p: CameraParameters, path: string, linearColorSpace: bool): (c: NativeEncodeConfig)
    ensures PathConsistent(c) && c.outPutPath == path
    ensures c.width == (if p.blendMode == WidescreenBlend then 2 * p.cameraResolutionWidth else p.cameraResolutionWidth)
    ensures p.captureSide == Single ==> c.height == p.cameraResolutionHeight
    ensures p.captureSide == Both && p.cameraResolutionHeight >= 0 ==>
      2 * c.height <= p.cameraResolutionHeight < 2 * c.height + 2
    ensures c.useAlpha <==> p.hologramOpacity <= 0.0
    ensures c.addMicphoneAudio == CaptureAudioMic(p) && c.addInternalAudio == CaptureAudioApplication(p)
    ensures c.fps == p.frameRate && c.useStepTime == 0 && c.useLinnerTexture == linearColorSpace
    ensures c.bitRate == RecordVideoBitrateDefault
    ensures c.audioBitRate == RecordAudioBitrateDefault && c.audioSampleRate == RecordAudioSampleRateDefault
  {
    NativeEncodeConfig(
      if p.blendMode == WidescreenBlend then 2 * p.cameraResolutionWidth else p.cameraResolutionWidth,
      if p.captureSide == Both then CSharp.Div(p.cameraResolutionHeight, 2) else p.cameraResolutionHeight,
      RecordVideoBitrateDefault,
      p.frameRate,
      GetCodecTypeByPath(path),
      path,
      0,
      p.hologramOpacity <= 0.0,
      linearColorSpace,
      CaptureAudioMic(p),
      CaptureAudioApplication(p),
      RecordAudioSampleRateDefault,
      RecordAudioBitrateDefault)
  }

  /** `SetOutPutPath`: the path and the codec change together; nothing else
      does. */
  function SetOutPutPath(c: NativeEncodeConfig, path: string): (c': NativeEncodeConfig)
    ensures PathConsistent(c') && c'.outPutPath == path
    ensures c'.(codecType := c.codecType, outPutPath := c.outPutPath) == c
  {
    c.(codecType := GetCodecTypeByPath(path), outPutPath := path)
  }

  /** Redirecting a configuration to another path gives the configuration
      that would have been built with that path. */
  lemma SetOutPutPathAgreesWithConstructor(p: CameraParameters, path1: string, path2: string, linear: bool)
    ensures SetOutPutPath(NewEncodeConfig(p, path1, linear), path2) == NewEncodeConfig(p, path2, linear)
  {
  }

  /** With the default parameters the encoder records 1280x720 at 30 fps
      with both audio sources, no alpha. */
  lemma DefaultEncoderSettings(mode: CamMode, path: string, linear: bool)
    ensures var c := NewEncodeConfig(NewCameraParameters(mode, Blend), path, linear);
      c.width == 1280 && c.height == 720 && c.fps == 30 && !c.useAlpha
      && c.addMicphoneAudio && c.addInternalAudio
  {
  }
}
