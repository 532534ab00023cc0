/** The fixed texts the bot sends: the string literals of telegram.go as
    their UTF-8 bytes (Go string literals are UTF-8 and `len` counts bytes). */
module Replies {
  import opened Base

  /** The texts one bot uses. */
  datatype Texts = Texts(
    start: seq<byte>, help: seq<byte>, tooMany: seq<byte>, ack: seq<byte>, failure: seq<byte>,
    continued: seq<byte>, tooLongPrefix: seq<byte>, tooLongSuffix: seq<byte>)

  /** The literals of telegram.go. */
  const Catalog: Texts := Texts(StartReply, HelpReply, TooManyRequests, Ack, GenericError,
    Continued, TooLongPrefix, TooLongSuffix)

  /** The reply to `/start`: "Привет! Я бот для работы с Ollama LLM.\n\nПросто отправь мне сообщение, и я передам его модели для генерации ответа.\n\nИспользуй /help для получения справки." in UTF-8. */
  const StartReply: seq<byte> := [
      208, 159, 209, 128, 208, 184, 208, 178, 208, 181, 209, 130, 33, 32, 208, 175, 32, 208,
      177, 208, 190, 209, 130, 32, 208, 180, 208, 187, 209, 143, 32, 209, 128, 208, 176, 208,
      177, 208, 190, 209, 130, 209, 139, 32, 209, 129, 32, 79, 108, 108, 97, 109, 97, 32, 76,
      76, 77, 46, 10, 10, 208, 159, 209, 128, 208, 190, 209, 129, 209, 130, 208, 190, 32,
      208, 190, 209, 130, 208, 191, 209, 128, 208, 176, 208, 178, 209, 140, 32, 208, 188,
      208, 189, 208, 181, 32, 209, 129, 208, 190, 208, 190, 208, 177, 209, 137, 208, 181,
      208, 189, 208, 184, 208, 181, 44, 32, 208, 184, 32, 209, 143, 32, 208, 191, 208, 181,
      209, 128, 208, 181, 208, 180, 208, 176, 208, 188, 32, 208, 181, 208, 179, 208, 190, 32,
      208, 188, 208, 190, 208, 180, 208, 181, 208, 187, 208, 184, 32, 208, 180, 208, 187,
      209, 143, 32, 208, 179, 208, 181, 208, 189, 208, 181, 209, 128, 208, 176, 209, 134,
      208, 184, 208, 184, 32, 208, 190, 209, 130, 208, 178, 208, 181, 209, 130, 208, 176, 46,
      10, 10, 208, 152, 209, 129, 208, 191, 208, 190, 208, 187, 209, 140, 208, 183, 209, 131,
      208, 185, 32, 47, 104, 101, 108, 112, 32, 208, 180, 208, 187, 209, 143, 32, 208, 191,
      208, 190, 208, 187, 209, 131, 209, 135, 208, 181, 208, 189, 208, 184, 209, 143, 32,
      209, 129, 208, 191, 209, 128, 208, 176, 208, 178, 208, 186, 208, 184, 46]
  /** The reply to `/help`: "Доступные команды:\n\n/start - приветственное сообщение\n/help - эта справка\n\nЛюбое другое сообщение будет отправлено в Ollama для генерации ответа." in UTF-8. */
  const HelpReply: seq<byte> := [
      208, 148, 208, 190, 209, 129, 209, 130, 209, 131, 208, 191, 208, 189, 209, 139, 208,
      181, 32, 208, 186, 208, 190, 208, 188, 208, 176, 208, 189, 208, 180, 209, 139, 58, 10,
      10, 47, 115, 116, 97, 114, 116, 32, 45, 32, 208, 191, 209, 128, 208, 184, 208, 178,
      208, 181, 209, 130, 209, 129, 209, 130, 208, 178, 208, 181, 208, 189, 208, 189, 208,
      190, 208, 181, 32, 209, 129, 208, 190, 208, 190, 208, 177, 209, 137, 208, 181, 208,
      189, 208, 184, 208, 181, 10, 47, 104, 101, 108, 112, 32, 45, 32, 209, 141, 209, 130,
      208, 176, 32, 209, 129, 208, 191, 209, 128, 208, 176, 208, 178, 208, 186, 208, 176, 10,
      10, 208, 155, 209, 142, 208, 177, 208, 190, 208, 181, 32, 208, 180, 209, 128, 209, 131,
      208, 179, 208, 190, 208, 181, 32, 209, 129, 208, 190, 208, 190, 208, 177, 209, 137,
      208, 181, 208, 189, 208, 184, 208, 181, 32, 208, 177, 209, 131, 208, 180, 208, 181,
      209, 130, 32, 208, 190, 209, 130, 208, 191, 209, 128, 208, 176, 208, 178, 208, 187,
      208, 181, 208, 189, 208, 190, 32, 208, 178, 32, 79, 108, 108, 97, 109, 97, 32, 208,
      180, 208, 187, 209, 143, 32, 208, 179, 208, 181, 208, 189, 208, 181, 209, 128, 208,
      176, 209, 134, 208, 184, 208, 184, 32, 208, 190, 209, 130, 208, 178, 208, 181, 209,
      130, 208, 176, 46]
  /** The reply to a request over the rate limit: "Слишком много запросов. Пожалуйста, подождите немного." in UTF-8. */
  const TooManyRequests: seq<byte> := [
      208, 161, 208, 187, 208, 184, 209, 136, 208, 186, 208, 190, 208, 188, 32, 208, 188,
      208, 189, 208, 190, 208, 179, 208, 190, 32, 208, 183, 208, 176, 208, 191, 209, 128,
      208, 190, 209, 129, 208, 190, 208, 178, 46, 32, 208, 159, 208, 190, 208, 182, 208, 176,
      208, 187, 209, 131, 208, 185, 209, 129, 209, 130, 208, 176, 44, 32, 208, 191, 208, 190,
      208, 180, 208, 190, 208, 182, 208, 180, 208, 184, 209, 130, 208, 181, 32, 208, 189,
      208, 181, 208, 188, 208, 189, 208, 190, 208, 179, 208, 190, 46]
  /** The acknowledgement sent before the backend is asked: "Обрабатываю запрос..." in UTF-8. */
  const Ack: seq<byte> := [
      208, 158, 208, 177, 209, 128, 208, 176, 208, 177, 208, 176, 209, 130, 209, 139, 208,
      178, 208, 176, 209, 142, 32, 208, 183, 208, 176, 208, 191, 209, 128, 208, 190, 209,
      129, 46, 46, 46]
  /** The reply when the backend fails: "Произошла ошибка при обработке запроса. Попробуйте позже." in UTF-8. */
  const GenericError: seq<byte> := [
      208, 159, 209, 128, 208, 190, 208, 184, 208, 183, 208, 190, 209, 136, 208, 187, 208,
      176, 32, 208, 190, 209, 136, 208, 184, 208, 177, 208, 186, 208, 176, 32, 208, 191, 209,
      128, 208, 184, 32, 208, 190, 208, 177, 209, 128, 208, 176, 208, 177, 208, 190, 209,
      130, 208, 186, 208, 181, 32, 208, 183, 208, 176, 208, 191, 209, 128, 208, 190, 209,
      129, 208, 176, 46, 32, 208, 159, 208, 190, 208, 191, 209, 128, 208, 190, 208, 177, 209,
      131, 208, 185, 209, 130, 208, 181, 32, 208, 191, 208, 190, 208, 183, 208, 182, 208,
      181, 46]
  /** Appended to the first part of a reply that was split: "\n\n[Продолжение следует...]" in UTF-8. */
  const Continued: seq<byte> := [
      10, 10, 91, 208, 159, 209, 128, 208, 190, 208, 180, 208, 190, 208, 187, 208, 182, 208,
      181, 208, 189, 208, 184, 208, 181, 32, 209, 129, 208, 187, 208, 181, 208, 180, 209,
      131, 208, 181, 209, 130, 46, 46, 46, 93]
  /** The "too long" reply before the number: "Сообщение слишком длинное. Максимальная длина: " in UTF-8. */
  const TooLongPrefix: seq<byte> := [
      208, 161, 208, 190, 208, 190, 208, 177, 209, 137, 208, 181, 208, 189, 208, 184, 208,
      181, 32, 209, 129, 208, 187, 208, 184, 209, 136, 208, 186, 208, 190, 208, 188, 32, 208,
      180, 208, 187, 208, 184, 208, 189, 208, 189, 208, 190, 208, 181, 46, 32, 208, 156, 208,
      176, 208, 186, 209, 129, 208, 184, 208, 188, 208, 176, 208, 187, 209, 140, 208, 189,
      208, 176, 209, 143, 32, 208, 180, 208, 187, 208, 184, 208, 189, 208, 176, 58, 32]
  /** and after it: " символов." in UTF-8. */
  const TooLongSuffix: seq<byte> := [32, 209, 129, 208, 184, 208, 188, 208, 178, 208, 190, 208, 187, 208, 190, 208, 178, 46]
}
